/**
 versions.compareVersions and modpack.CompareVersions were written independently; on the version
 texts that moddb/client.go accepts as exact game versions they are the same order while the numbers
 fit an int.
 */
module Comparators {
  import opened Int64
  import opened Options
  import opened Order
  import opened Text
  import Modpack
  import Semver
  import VersionPrinting
  import Versions

  datatype Tag = Dev | Pre | Rc

  /** x.y.z or x.y.z-(dev|pre|rc).n, without leading zeros. */
  datatype GameVersion = GameVersion(x: nat, y: nat, z: nat, channel: Option<(Tag, nat)>)

  predicate InRange(v: GameVersion) {
    v.x <= MAX_INT && v.y <= MAX_INT && v.z <= MAX_INT && (v.channel.Some? ==> v.channel.value.1 <= MAX_INT)
  }

  function TagText(t: Tag): string {
    match t
    case Dev => "dev"
    case Pre => "pre"
    case Rc => "rc"
  }

  function ChannelText(v: GameVersion): string {
    if v.channel.None? then "" else "-" + (TagText(v.channel.value.0) + ("." + Dec(v.channel.value.1)))
  }

  function VersionText(v: GameVersion): string {
    Dec(v.x) + ("." + (Dec(v.y) + ("." + (Dec(v.z) + ChannelText(v)))))
  }

  // ----- what each package reads -----

  function ChannelParts(v: GameVersion): seq<Versions.Part> {
    if v.channel.None? then []
    else [Versions.Word(TagText(v.channel.value.0)), Versions.Num(v.channel.value.1)]
  }

  function PartsOf(v: GameVersion): seq<Versions.Part> {
    [Versions.Num(v.x)] + ([Versions.Num(v.y)] + ([Versions.Num(v.z)] + ChannelParts(v)))
  }

  function SemverOf(v: GameVersion): Semver.Version {
    Semver.Version(v.x, v.y, v.z,
                   if v.channel.None? then []
                   else [Semver.Alnum(TagText(v.channel.value.0)), Semver.Numeric(v.channel.value.1)])
  }

  /** A number as a 64-bit int holds it, the largest standing for all larger ones. */
  function Saturated(n: nat): nat { if n > MAX_INT then MAX_INT else n }

  function Saturate(v: GameVersion): GameVersion {
    GameVersion(Saturated(v.x), Saturated(v.y), Saturated(v.z),
                if v.channel.None? then None else Some((v.channel.value.0, Saturated(v.channel.value.1))))
  }

  lemma NumberThen(n: nat, rest: string)
    requires rest == "" || VersionPrinting.Separator(rest[0])
    ensures Versions.Parts(Dec(n) + rest) == [Versions.Num(Saturated(n))] + Versions.Parts(rest)
  {
    var s := Dec(n) + rest;
    assert s[..|Dec(n)|] == Dec(n) && s[|Dec(n)|..] == rest;
    RunIs(s, IsDigit, |Dec(n)|);
    DecRoundTrip(n);
  }

  lemma SkipSeparator(c: char, rest: string)
    requires VersionPrinting.Separator(c)
    ensures Versions.Parts([c] + rest) == Versions.Parts(rest)
  {
  }

  lemma TagThen(t: Tag, rest: string)
    ensures Versions.Parts(TagText(t) + ("." + rest)) == [Versions.Word(TagText(t))] + Versions.Parts(rest)
  {
    assert All(TagText(t), IsLetter);
    VersionPrinting.PartsOfOne(Versions.Word(TagText(t)), "." + rest);
    SkipSeparator('.', rest);
  }

  lemma NumberAlone(n: nat)
    ensures Versions.Parts(Dec(n)) == [Versions.Num(Saturated(n))]
  {
    assert Dec(n) + "" == Dec(n);
    NumberThen(n, "");
  }

  lemma ChannelIsSplit(v: GameVersion)
    ensures Versions.Parts(ChannelText(v)) == ChannelParts(Saturate(v))
  {
    if v.channel.Some? {
      var (tag, n) := v.channel.value;
      SkipSeparator('-', TagText(tag) + ("." + Dec(n)));
      TagThen(tag, Dec(n));
      NumberAlone(n);
    }
  }

  lemma NumberDot(n: nat, rest: string)
    ensures Versions.Parts(Dec(n) + ("." + rest)) == [Versions.Num(Saturated(n))] + Versions.Parts(rest)
  {
    NumberThen(n, "." + rest);
    SkipSeparator('.', rest);
  }

  lemma PartsOfText(v: GameVersion)
    ensures Versions.Parts(VersionText(v)) == PartsOf(Saturate(v))
  {
    var z := Dec(v.z) + ChannelText(v);
    NumberDot(v.x, Dec(v.y) + ("." + z));
    NumberDot(v.y, z);
    NumberThen(v.z, ChannelText(v));
    ChannelIsSplit(v);
  }

  predicate Plain(c: char) { IsDigit(c) || IsLower(c) || c == '.' || c == '-' }

  lemma TextIsPlain(v: GameVersion)
    ensures VersionText(v) != "" && All(VersionText(v), Plain) && IsDigit(VersionText(v)[0])
  {
    assert All(Dec(v.x), IsDigit) && All(Dec(v.y), IsDigit) && All(Dec(v.z), IsDigit);
    if v.channel.Some? {
      assert All(TagText(v.channel.value.0), Plain) && All(Dec(v.channel.value.1), IsDigit);
    }
    assert All(ChannelText(v), Plain);
  }

  lemma ReadByVersions(v: GameVersion)
    ensures Versions.SplitVersion(VersionText(v)) == PartsOf(Saturate(v))
  {
    TextIsPlain(v);
    var s := VersionText(v);
    assert TrimSpace(s) == s && ToLower(s) == s;
    PartsOfText(v);
  }

  lemma ChannelIsPrinted(v: GameVersion)
    requires v.channel.Some?
    ensures Semver.ValidVersion(SemverOf(v))
    ensures ChannelText(v) == "-" + Join(Semver.IdentTexts(SemverOf(v).pre), '.')
  {
    var tag, n := TagText(v.channel.value.0), Dec(v.channel.value.1);
    assert tag[0] == 'd' || tag[0] == 'p' || tag[0] == 'r';
    assert Semver.IdentTexts(SemverOf(v).pre) == [tag, n];
    Semver.JoinShort(tag, n, "");
    assert tag + "." + n == tag + ("." + n);
  }

  lemma TextIsPrinted(v: GameVersion)
    ensures Semver.ValidVersion(SemverOf(v))
    ensures VersionText(v) == Semver.BodyText(SemverOf(v))
  {
    var x, y, z, channel := Dec(v.x), Dec(v.y), Dec(v.z), ChannelText(v);
    Semver.JoinShort(x, y, z);
    assert x + ("." + (y + ("." + (z + channel)))) == x + "." + y + "." + z + channel;
    if v.channel.Some? { ChannelIsPrinted(v); }
  }

  lemma ReadByModpack(v: GameVersion)
    ensures Modpack.RankOf(VersionText(v)) == Modpack.Semantic(SemverOf(v))
  {
    TextIsPlain(v);
    TextIsPrinted(v);
    var s := VersionText(v);
    assert TrimSpace(s) == s;
    assert Modpack.Prefixed(s) == Semver.Print(SemverOf(v));
    Semver.ParsePrint(SemverOf(v));
  }

  // ----- the two orders -----

  lemma ChannelOrdersAgree(a: GameVersion, b: GameVersion)
    ensures Versions.PartsOrder(ChannelParts(a), ChannelParts(b)) ==
            Semver.PreCmp(SemverOf(a).pre, SemverOf(b).pre)
  {
    StrOrder();
    if a.channel.Some? && b.channel.Some? {
      var s, t := TagText(a.channel.value.0), TagText(b.channel.value.0);
      var m, n := a.channel.value.1, b.channel.value.1;
      assert StrCmp(s, t) == -StrCmp(t, s);
      PaddedHead(Versions.Word(s), [Versions.Num(m)], Versions.Word(t), [Versions.Num(n)]);
      PaddedHead(Versions.Num(m), [], Versions.Num(n), []);
      LexPair(SemverOf(a).pre, SemverOf(b).pre);
    }
  }

  lemma PaddedHead(x: Versions.Part, xs: seq<Versions.Part>, y: Versions.Part, ys: seq<Versions.Part>)
    ensures Versions.PartsOrder([x] + xs, [y] + ys) ==
            if Versions.PartCmp(x, y) != 0 then Versions.PartCmp(x, y) else Versions.PartsOrder(xs, ys)
  {
  }

  lemma LexPair(a: seq<Semver.Ident>, b: seq<Semver.Ident>)
    requires |a| == |b| == 2
    ensures Lex(Semver.IdentCmp, a, b) ==
            if Semver.IdentCmp(a[0], b[0]) != 0 then Semver.IdentCmp(a[0], b[0]) else Semver.IdentCmp(a[1], b[1])
  {
    var a', b' := a[1..], b[1..];
    assert a'[1..] == [] && b'[1..] == [] && a'[0] == a[1] && b'[0] == b[1];
    assert Lex(Semver.IdentCmp, a', b') == Semver.IdentCmp(a[1], b[1]);
  }

  lemma OrdersAgree(a: GameVersion, b: GameVersion)
    ensures Versions.PartsOrder(PartsOf(a), PartsOf(b)) == Semver.VersionCmp(SemverOf(a), SemverOf(b))
  {
    var a3, b3 := ChannelParts(a), ChannelParts(b);
    var a2, b2 := [Versions.Num(a.z)] + a3, [Versions.Num(b.z)] + b3;
    var a1, b1 := [Versions.Num(a.y)] + a2, [Versions.Num(b.y)] + b2;
    PaddedHead(Versions.Num(a.x), a1, Versions.Num(b.x), b1);
    PaddedHead(Versions.Num(a.y), a2, Versions.Num(b.y), b2);
    PaddedHead(Versions.Num(a.z), a3, Versions.Num(b.z), b3);
    ChannelOrdersAgree(a, b);
    assert Versions.PartsOrder(PartsOf(a), PartsOf(b)) ==
        if a.x != b.x then IntCmp(a.x, b.x) else Versions.PartsOrder(a1, b1);
    assert Versions.PartsOrder(a1, b1) == if a.y != b.y then IntCmp(a.y, b.y) else Versions.PartsOrder(a2, b2);
    assert Versions.PartsOrder(a2, b2) == if a.z != b.z then IntCmp(a.z, b.z) else Versions.PartsOrder(a3, b3);
  }

  lemma PlannerOrder(a: GameVersion, b: GameVersion)
    ensures Modpack.CompareVersions(VersionText(a), VersionText(b)) == Semver.VersionCmp(SemverOf(a), SemverOf(b))
  {
    ReadByModpack(a);
    ReadByModpack(b);
    Modpack.CompareByRank(VersionText(a), VersionText(b));
  }

  /** On all such texts the release order is the planner's order of the saturated versions. */
  lemma ReleaseOrderSaturates(a: GameVersion, b: GameVersion)
    ensures Versions.VersionOrder(VersionText(a), VersionText(b)) ==
            Modpack.CompareVersions(VersionText(Saturate(a)), VersionText(Saturate(b)))
  {
    ReadByVersions(a);
    ReadByVersions(b);
    PlannerOrder(Saturate(a), Saturate(b));
    OrdersAgree(Saturate(a), Saturate(b));
  }

  /** The comparators agree on two texts exactly when saturating their numbers keeps the precedence. */
  lemma ComparatorsAgreeIff(a: GameVersion, b: GameVersion)
    ensures var s, t := VersionText(a), VersionText(b);
            var x, y := SemverOf(Saturate(a)), SemverOf(Saturate(b));
            Versions.VersionOrder(s, t) == Modpack.CompareVersions(s, t) <==>
            Semver.VersionCmp(x, y) == Semver.VersionCmp(SemverOf(a), SemverOf(b))
  {
    ReleaseOrderSaturates(a, b);
    PlannerOrder(a, b);
    PlannerOrder(Saturate(a), Saturate(b));
  }

  /** The two comparators give the same sign on numbers of a 64-bit int. */
  lemma ComparatorsAgree(a: GameVersion, b: GameVersion)
    requires InRange(a) && InRange(b)
    ensures Versions.VersionOrder(VersionText(a), VersionText(b)) ==
            Modpack.CompareVersions(VersionText(a), VersionText(b))
  {
    ReleaseOrderSaturates(a, b);
  }

  /** Beyond that range they differ: larger numbers are all equal to the release order. */
  lemma ComparatorsDifferOutOfRange(a: GameVersion, b: GameVersion)
    requires MAX_INT <= a.x < b.x && a.y == b.y && a.z == b.z && a.channel == b.channel
    ensures Versions.VersionOrder(VersionText(a), VersionText(b)) == 0
    ensures Modpack.CompareVersions(VersionText(a), VersionText(b)) == -1
  {
    ReadByVersions(a);
    ReadByVersions(b);
    Versions.VersionOrderZero(VersionText(a), VersionText(b));
    PlannerOrder(a, b);
  }
}

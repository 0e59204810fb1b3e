/** The upgrade planner of modpack/modpack.go: the version order and the choice of a target. */
module Modpack {
  import opened Options
  import opened Order
  import opened Text
  import Semver

  datatype Dependency = Dependency(modID: string, name: string, requirement: string)

  datatype ModVersion = ModVersion(id: string, version: string, releaseType: string, gameVersions: seq<string>,
                                   changelog: string, dependencies: seq<Dependency>)

  datatype ModInfo = ModInfo(id: string, latestVersion: string, versions: seq<ModVersion>)

  // ----- versions -----

  /** The text handed to the semver library: trimmed, with a "v" unless it starts with 'v' or 'V'. */
  function Prefixed(v: string): string {
    var t := TrimSpace(v);
    if t == "" || LowerChar(t[0]) == 'v' then t else "v" + t
  }

  function NormalizeSemver(v: string): string {
    if Semver.IsValid(Prefixed(v)) then Semver.CanonicalText(Prefixed(v)) else ""
  }

  predicate Normalizes(v: string) { NormalizeSemver(v) != "" }

  function CompareVersions(a: string, b: string): int {
    var x, y := NormalizeSemver(a), NormalizeSemver(b);
    if x != "" && y != "" then Semver.Compare(x, y)
    else if x != "" then 1
    else if y != "" then -1
    else StrCmp(ToLower(a), ToLower(b))
  }

  predicate VersionEquals(a: string, b: string) {
    if a == "" || b == "" then EqualFold(a, b)
    else
      var x, y := NormalizeSemver(a), NormalizeSemver(b);
      if x != "" && y != "" then x == y else EqualFold(a, b)
  }

  predicate IsPrereleaseVersion(v: string) {
    var x := NormalizeSemver(v);
    x != "" && Semver.Parse(x).Some? && Semver.Parse(x).value.pre != []
  }

  /** A normalized version is read back as the version that was normalized. */
  lemma NormalizedParses(v: string)
    ensures Normalizes(v) <==> Semver.IsValid(Prefixed(v))
    ensures Normalizes(v) ==> Semver.Parse(NormalizeSemver(v)) == Semver.Parse(Prefixed(v))
    ensures Normalizes(v) ==> NormalizeSemver(NormalizeSemver(v)) == NormalizeSemver(v)
  {
    if Semver.IsValid(Prefixed(v)) {
      Semver.CanonicalRoundTrip(Prefixed(v));
      var x := NormalizeSemver(v);
      CanonicalKeepsEnds(Prefixed(v));
      assert Prefixed(x) == x;
    }
  }

  lemma AllConcat(s: string, t: string, p: char -> bool)
    requires All(s, p) && All(t, p)
    ensures All(s + t, p)
  {
  }

  lemma PrintVisible(p: Semver.Version)
    requires Semver.ValidVersion(p)
    ensures All(Semver.Print(p), Visible)
  {
    var core := Semver.CoreText(p);
    Semver.CoreRoundTrip(p);
    assert All(core, Visible) by { assert forall c :: Semver.CoreChar(c) ==> Visible(c); }
    var body := core;
    if p.pre != [] {
      var pre := Join(Semver.IdentTexts(p.pre), '.');
      Semver.PreRoundTrip(p.pre);
      assert All(pre, Visible) by { assert forall c :: Semver.PreChar(c) ==> Visible(c); }
      AllConcat("-", pre, Visible);
      AllConcat(core, "-" + pre, Visible);
      body := core + ("-" + pre);
    } else {
      assert core + "" == core;
    }
    AllConcat("v", body, Visible);
  }

  lemma CanonicalKeepsEnds(v: string)
    requires Semver.IsValid(v)
    ensures TrimSpace(Semver.CanonicalText(v)) == Semver.CanonicalText(v)
    ensures Semver.CanonicalText(v) != "" && Semver.CanonicalText(v)[0] == 'v'
  {
    Semver.ParseGivesValid(v);
    PrintVisible(Semver.Parse(v).value);
    TrimVisible(Semver.CanonicalText(v));
  }

  // ----- the order -----

  /** The class of a version and what is compared inside the class. */
  datatype Rank = Plain(text: string) | Semantic(v: Semver.Version)

  function RankOf(v: string): Rank {
    match Semver.Parse(Prefixed(v))
    case Some(p) => Semantic(p)
    case None => Plain(ToLower(v))
  }

  /** Semantic versions by precedence, above plain ones by string order. */
  function RankCmp(a: Rank, b: Rank): int {
    match (a, b)
    case (Semantic(x), Semantic(y)) => Semver.VersionCmp(x, y)
    case (Semantic(_), Plain(_)) => 1
    case (Plain(_), Semantic(_)) => -1
    case (Plain(s), Plain(t)) => StrCmp(s, t)
  }

  lemma RankOrder()
    ensures TotalPreorder(RankCmp) && Separates(RankCmp)
  {
    StrOrder();
    Semver.PrecedenceOrder();
    forall a, b ensures -1 <= RankCmp(a, b) <= 1 && RankCmp(a, b) == -RankCmp(b, a) {
      if a.Semantic? && b.Semantic? {
        assert Semver.VersionCmp(a.v, b.v) == -Semver.VersionCmp(b.v, a.v);
      } else if a.Plain? && b.Plain? {
        assert StrCmp(a.text, b.text) == -StrCmp(b.text, a.text);
      }
    }
    forall a, b, c | RankCmp(a, b) <= 0 && RankCmp(b, c) <= 0 ensures RankCmp(a, c) <= 0 {
      if a.Semantic? && b.Semantic? && c.Semantic? {
        assert Semver.VersionCmp(a.v, b.v) <= 0 && Semver.VersionCmp(b.v, c.v) <= 0;
      } else if a.Plain? && b.Plain? && c.Plain? {
        assert StrCmp(a.text, b.text) <= 0 && StrCmp(b.text, c.text) <= 0;
      }
    }
  }

  lemma CompareByRank(a: string, b: string)
    ensures CompareVersions(a, b) == RankCmp(RankOf(a), RankOf(b))
  {
    NormalizedParses(a);
    NormalizedParses(b);
  }

  /** Versions that normalize, in precedence order, are above those that do not, in string order. */
  lemma CompareVersionsIsTotalPreorder()
    ensures TotalPreorder(CompareVersions)
    ensures forall a, b :: CompareVersions(a, b) == 0 <==> RankOf(a) == RankOf(b)
  {
    RankOrder();
    forall a, b ensures CompareVersions(a, b) == RankCmp(RankOf(a), RankOf(b)) {
      CompareByRank(a, b);
    }
    forall a, b ensures RankCmp(RankOf(a), RankOf(b)) == 0 <==> RankOf(a) == RankOf(b) {
      assert RankCmp(RankOf(a), RankOf(a)) == -RankCmp(RankOf(a), RankOf(a));
    }
  }

  // ----- equality against the order -----

  lemma TakeFold(s: string, t: string, n: nat)
    requires EqualFold(s, t) && n <= |s|
    ensures |s| == |t| && EqualFold(s[..n], t[..n])
  {
  }

  lemma DropFold(s: string, t: string, n: nat)
    requires EqualFold(s, t) && n <= |s|
    ensures |s| == |t| && EqualFold(s[n..], t[n..])
  {
  }

  lemma CharFold(s: string, t: string, i: nat)
    requires EqualFold(s, t) && i < |s|
    ensures |s| == |t| && LowerChar(s[i]) == LowerChar(t[i])
    ensures !IsLetter(s[i]) || !IsLetter(t[i]) ==> s[i] == t[i]
  {
  }

  lemma FindFold(s: string, t: string, c: char)
    requires EqualFold(s, t) && !IsLetter(c)
    ensures Find(s, c) == Find(t, c)
  {
  }

  /** Texts equal up to case are cut at the same place into texts equal up to case. */
  lemma CutAroundFold(s: string, t: string, c: char)
    requires EqualFold(s, t) && !IsLetter(c)
    ensures |s| == |t| && Find(s, c) == Find(t, c)
    ensures EqualFold(s[..Find(s, c)], t[..Find(s, c)])
    ensures Find(s, c) < |s| ==> EqualFold(s[Find(s, c) + 1..], t[Find(s, c) + 1..])
  {
    FindFold(s, t, c);
    TakeFold(s, t, Find(s, c));
    if Find(s, c) < |s| { DropFold(s, t, Find(s, c) + 1); }
  }

  ghost predicate EachFold(ss: seq<string>, ts: seq<string>) {
    |ss| == |ts| && forall i :: 0 <= i < |ss| ==> EqualFold(ss[i], ts[i])
  }

  lemma EachFoldCons(s: string, ss: seq<string>, t: string, ts: seq<string>)
    requires EqualFold(s, t) && EachFold(ss, ts)
    ensures EachFold([s] + ss, [t] + ts)
  {
  }

  lemma {:induction false} SplitFold(s: string, t: string, c: char)
    requires EqualFold(s, t) && !IsLetter(c)
    ensures EachFold(Split(s, c), Split(t, c))
    decreases |s|
  {
    CutAroundFold(s, t, c);
    var n := Find(s, c);
    if n < |s| {
      SplitFold(s[n + 1..], t[n + 1..], c);
      EachFoldCons(s[..n], Split(s[n + 1..], c), t[..n], Split(t[n + 1..], c));
    }
  }

  ghost predicate PiecesFold(p: Semver.Pieces, q: Semver.Pieces) {
    && EachFold(p.core, q.core)
    && p.pre.Some? == q.pre.Some? && (p.pre.Some? ==> EachFold(p.pre.value, q.pre.value))
    && p.build.Some? == q.build.Some? && (p.build.Some? ==> EachFold(p.build.value, q.build.value))
  }

  lemma CutFold(s: string, t: string)
    requires EqualFold(s, t)
    ensures PiecesFold(Semver.Cut(s), Semver.Cut(t))
  {
    CutAroundFold(s, t, '+');
    var plus := Find(s, '+');
    if plus < |s| { SplitFold(s[plus + 1..], t[plus + 1..], '.'); }
    CutAroundFold(s[..plus], t[..plus], '-');
    var dash := Find(s[..plus], '-');
    SplitFold(s[..plus][..dash], t[..plus][..dash], '.');
    if dash < plus { SplitFold(s[..plus][dash + 1..], t[..plus][dash + 1..], '.'); }
  }

  lemma ValidFold(p: Semver.Pieces, q: Semver.Pieces)
    requires PiecesFold(p, q) && Semver.ValidPieces(p)
    ensures Semver.ValidPieces(q)
  {
  }

  lemma ParseFold(s: string, t: string)
    requires EqualFold(s, t) && s != "" && t != "" && s[0] == t[0]
    ensures Semver.IsValid(s) ==> Semver.IsValid(t)
  {
    DropFold(s, t, 1);
    CutFold(s[1..], t[1..]);
    if Semver.ValidPieces(Semver.Cut(s[1..])) {
      ValidFold(Semver.Cut(s[1..]), Semver.Cut(t[1..]));
    }
  }

  lemma {:induction false} TrimLeftFold(s: string, t: string)
    requires EqualFold(s, t)
    ensures EqualFold(TrimLeft(s), TrimLeft(t))
  {
    TakeFold(s, t, 0);
    if s != [] {
      CharFold(s, t, 0);
      DropFold(s, t, 1);
      TrimLeftFold(s[1..], t[1..]);
    }
  }

  lemma {:induction false} TrimRightFold(s: string, t: string)
    requires EqualFold(s, t)
    ensures EqualFold(TrimRight(s), TrimRight(t))
  {
    TakeFold(s, t, 0);
    if s != [] {
      CharFold(s, t, |s| - 1);
      TakeFold(s, t, |s| - 1);
      TrimRightFold(s[..|s| - 1], t[..|t| - 1]);
    }
  }

  /** The version is written with a capital V, which is neither replaced nor read as a prefix. */
  predicate CapitalV(v: string) { TrimSpace(v) != "" && TrimSpace(v)[0] == 'V' }

  lemma PrefixedFold(a: string, b: string)
    requires EqualFold(a, b) && !CapitalV(a) && !CapitalV(b)
    ensures EqualFold(Prefixed(a), Prefixed(b))
    ensures Prefixed(a) == "" <==> Prefixed(b) == ""
    ensures Prefixed(a) != "" ==> Prefixed(a)[0] == Prefixed(b)[0] == 'v'
  {
    TrimLeftFold(a, b);
    TrimRightFold(TrimLeft(a), TrimLeft(b));
    var s, t := TrimSpace(a), TrimSpace(b);
    TakeFold(s, t, 0);
    if s != "" {
      CharFold(s, t, 0);
      assert ToLower("v" + s) == "v" + ToLower(s) && ToLower("v" + t) == "v" + ToLower(t);
    }
  }

  /** Up to case, only a capital V decides whether a version normalizes. */
  lemma NormalizesUpToCase(a: string, b: string)
    requires EqualFold(a, b)
    ensures CapitalV(a) ==> !Normalizes(a)
    ensures !CapitalV(a) && !CapitalV(b) && Normalizes(a) ==> Normalizes(b)
  {
    NormalizedParses(a);
    NormalizedParses(b);
    if !CapitalV(a) && !CapitalV(b) {
      PrefixedFold(a, b);
      if Prefixed(a) != "" { ParseFold(Prefixed(a), Prefixed(b)); }
    }
  }

  lemma EmptyIsPlain()
    ensures !Normalizes("")
  {
  }

  /** Equality agrees with the order except across the two classes. */
  lemma EqualsByRank(a: string, b: string)
    ensures VersionEquals(a, b) <==>
            if Normalizes(a) == Normalizes(b) then CompareVersions(a, b) == 0 else EqualFold(a, b)
  {
    EmptyIsPlain();
    CompareVersionsIsTotalPreorder();
    assert CompareVersions(a, b) == 0 <==> RankOf(a) == RankOf(b);
    NormalizedParses(a);
    NormalizedParses(b);
    if Normalizes(a) && Normalizes(b) {
      Semver.SameCanonicalText(Prefixed(a), Prefixed(b));
    }
  }

  /** VersionEquals is "compares equal" except when the same text is once spelt "v..." and once "V...". */
  lemma EqualsAgreesWithOrder(a: string, b: string)
    ensures (VersionEquals(a, b) <==> CompareVersions(a, b) == 0) <==>
            !(EqualFold(a, b) && CapitalV(a) != CapitalV(b) && (Normalizes(a) || Normalizes(b)))
  {
    EqualsByRank(a, b);
    CompareByRank(a, b);
    NormalizedParses(a);
    NormalizedParses(b);
    if EqualFold(a, b) {
      NormalizesUpToCase(a, b);
      NormalizesUpToCase(b, a);
    }
  }

  lemma ExampleNormalizes()
    ensures Semver.Parse("v1.2.3") == Some(Semver.Version(1, 2, 3, []))
  {
    var v := Semver.Version(1, 2, 3, []);
    Semver.JoinShort("1", "2", "3");
    assert Dec(1) == "1" && Dec(2) == "2" && Dec(3) == "3";
    assert Semver.Print(v) == "v1.2.3";
    Semver.ParsePrint(v);
  }

  lemma SplitVisible(s: string)
    requires forall k :: 0 <= k < |Split(s, '.')| ==> All(Split(s, '.')[k], Semver.IdentChar)
    ensures All(s, Visible)
  {
    JoinSplit(s, '.');
    JoinCharacters(Split(s, '.'), '.', Semver.PreChar);
    assert All(s, Semver.PreChar);
  }

  lemma VisibleAround(s: string, c: char)
    requires Visible(c) && All(s[..Find(s, c)], Visible)
    requires Find(s, c) < |s| ==> All(s[Find(s, c) + 1..], Visible)
    ensures All(s, Visible)
  {
    var n := Find(s, c);
    if n < |s| {
      CutAt(s, n);
      AllConcat(s[..n], [c], Visible);
      AllConcat(s[..n] + [c], s[n + 1..], Visible);
    } else {
      assert s[..n] == s;
    }
  }

  lemma PiecesVisible(rest: string)
    requires Semver.ValidPieces(Semver.Cut(rest))
    ensures All(rest, Visible)
  {
    var p := Semver.Cut(rest);
    var plus := Find(rest, '+');
    var main := rest[..plus];
    var dash := Find(main, '-');
    assert p.core == Split(main[..dash], '.');
    SplitVisible(main[..dash]);
    if dash < |main| {
      assert p.pre == Some(Split(main[dash + 1..], '.'));
      SplitVisible(main[dash + 1..]);
    }
    VisibleAround(main, '-');
    if plus < |rest| {
      assert p.build == Some(Split(rest[plus + 1..], '.'));
      SplitVisible(rest[plus + 1..]);
    }
    VisibleAround(rest, '+');
  }

  /** A valid version contains no white space. */
  lemma ValidIsVisible(v: string)
    requires Semver.IsValid(v)
    ensures All(v, Visible)
  {
    PiecesVisible(v[1..]);
    AllConcat("v", v[1..], Visible);
    assert "v" + v[1..] == v;
  }

  /** Respelt with a capital V, a valid version equals itself but is older than itself. */
  lemma CapitalVDisagrees(v: string)
    requires Semver.IsValid(v)
    ensures VersionEquals("V" + v[1..], v) && CompareVersions("V" + v[1..], v) == -1
  {
    var u := "V" + v[1..];
    ValidIsVisible(v);
    TrimVisible(u);
    TrimVisible(v);
    assert EqualFold(u, v);
    NormalizesUpToCase(u, v);
    NormalizedParses(u);
    NormalizedParses(v);
    EqualsByRank(u, v);
    CompareByRank(u, v);
  }
}

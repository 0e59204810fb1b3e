/**
 Semantic versions as golang.org/x/mod/semver reads them: a leading "v", the shorthands "vX" and
 "vX.Y", and the syntax and precedence of sections 9, 10 and 11 of SemVer 2.0.0.
 */
module Semver {
  import opened Options
  import opened Order
  import opened Text

  /** A dot-separated identifier of a prerelease (section 9). */
  datatype Ident = Numeric(n: nat) | Alnum(text: string)

  /** A version without its build metadata, which has no part in precedence (section 10). */
  datatype Version = Version(major: nat, minor: nat, patch: nat, pre: seq<Ident>)

  predicate IdentChar(c: char) { IsDigit(c) || IsLetter(c) || c == '-' }

  predicate ValidBuildText(s: string) { s != "" && All(s, IdentChar) }

  predicate ValidIdentText(s: string) { ValidBuildText(s) && (All(s, IsDigit) ==> Canonical(s)) }

  predicate ValidIdent(i: Ident) {
    i.Alnum? ==> ValidBuildText(i.text) && !All(i.text, IsDigit)
  }

  predicate ValidVersion(v: Version) { forall i :: 0 <= i < |v.pre| ==> ValidIdent(v.pre[i]) }

  // ----- reading -----

  function ParseIdent(s: string): Ident
    requires ValidIdentText(s)
  {
    if All(s, IsDigit) then Numeric(DecValue(s)) else Alnum(s)
  }

  function ParseIdents(ss: seq<string>): seq<Ident>
    requires forall i :: 0 <= i < |ss| ==> ValidIdentText(ss[i])
  {
    seq(|ss|, i requires 0 <= i < |ss| => ParseIdent(ss[i]))
  }

  predicate ValidCore(core: seq<string>) {
    1 <= |core| <= 3 && forall i :: 0 <= i < |core| ==> Canonical(core[i])
  }

  function CoreNumber(core: seq<string>, i: nat): nat
    requires ValidCore(core)
  {
    if i < |core| then DecValue(core[i]) else 0
  }

  /** The version cut into dotted core, prerelease (None if no '-') and build (None if no '+'). */
  datatype Pieces = Pieces(core: seq<string>, pre: Option<seq<string>>, build: Option<seq<string>>)

  function Cut(v: string): Pieces
  {
    var plus := Find(v, '+');
    var main := v[..plus];
    var dash := Find(main, '-');
    Pieces(Split(main[..dash], '.'),
           if dash < |main| then Some(Split(main[dash + 1..], '.')) else None,
           if plus < |v| then Some(Split(v[plus + 1..], '.')) else None)
  }

  predicate ValidPieces(p: Pieces) {
    && ValidCore(p.core)
    && (p.pre.Some? || p.build.Some? ==> |p.core| == 3)
    && (p.pre.Some? ==> forall i :: 0 <= i < |p.pre.value| ==> ValidIdentText(p.pre.value[i]))
    && (p.build.Some? ==> forall i :: 0 <= i < |p.build.value| ==> ValidBuildText(p.build.value[i]))
  }

  function FromPieces(p: Pieces): Version
    requires ValidPieces(p)
  {
    Version(CoreNumber(p.core, 0), CoreNumber(p.core, 1), CoreNumber(p.core, 2),
            if p.pre.Some? then ParseIdents(p.pre.value) else [])
  }

  function Parse(v: string): Option<Version> {
    if v != "" && v[0] == 'v' && ValidPieces(Cut(v[1..])) then Some(FromPieces(Cut(v[1..]))) else None
  }

  predicate IsValid(v: string) { Parse(v).Some? }

  lemma ParseGivesValid(v: string)
    requires IsValid(v)
    ensures ValidVersion(Parse(v).value)
  {
  }

  // ----- writing -----

  function IdentText(i: Ident): string {
    match i
    case Numeric(n) => Dec(n)
    case Alnum(t) => t
  }

  function IdentTexts(pre: seq<Ident>): seq<string> {
    seq(|pre|, i requires 0 <= i < |pre| => IdentText(pre[i]))
  }

  function CoreText(v: Version): string { Join([Dec(v.major), Dec(v.minor), Dec(v.patch)], '.') }

  function BodyText(v: Version): string {
    CoreText(v) + if v.pre == [] then "" else "-" + Join(IdentTexts(v.pre), '.')
  }

  function Print(v: Version): string { "v" + BodyText(v) }

  /** semver.Canonical: the version spelt in full without build metadata, "" when invalid. */
  function CanonicalText(v: string): string {
    match Parse(v)
    case Some(p) => Print(p)
    case None => ""
  }

  predicate CoreChar(c: char) { IsDigit(c) || c == '.' }
  predicate PreChar(c: char) { IdentChar(c) || c == '.' }

  lemma IdentTextRoundTrip(i: Ident)
    requires ValidIdent(i)
    ensures ValidIdentText(IdentText(i)) && ParseIdent(IdentText(i)) == i
  {
    if i.Numeric? {
      DecRoundTrip(i.n);
    }
  }

  lemma CutCore(core: string)
    requires All(core, CoreChar)
    ensures Cut(core) == Pieces(Split(core, '.'), None, None)
  {
    FindIs(core, '+', |core|);
    FindIs(core, '-', |core|);
    assert core[..|core|] == core;
  }

  lemma CutPrerelease(core: string, pre: string)
    requires All(core, CoreChar) && All(pre, PreChar)
    ensures Cut(core + ("-" + pre)) == Pieces(Split(core, '.'), Some(Split(pre, '.')), None)
  {
    var s := core + ("-" + pre);
    assert s[..|core|] == core && s[|core| + 1..] == pre && s[..|s|] == s;
    FindIs(s, '+', |s|);
    FindIs(s, '-', |core|);
  }

  function CoreTexts(v: Version): seq<string> { [Dec(v.major), Dec(v.minor), Dec(v.patch)] }

  lemma CoreTextsAreCanonical(v: Version)
    ensures ValidCore(CoreTexts(v))
  {
  }

  lemma CoreNumbers(v: Version)
    ensures ValidCore(CoreTexts(v))
    ensures CoreNumber(CoreTexts(v), 0) == v.major && CoreNumber(CoreTexts(v), 1) == v.minor
    ensures CoreNumber(CoreTexts(v), 2) == v.patch
  {
    CoreTextsAreCanonical(v);
    DecRoundTrip(v.major);
    DecRoundTrip(v.minor);
    DecRoundTrip(v.patch);
  }

  lemma CoreRoundTrip(v: Version)
    ensures All(CoreText(v), CoreChar)
    ensures Split(CoreText(v), '.') == CoreTexts(v)
  {
    var core := CoreTexts(v);
    JoinCharacters(core, '.', CoreChar);
    SplitJoin(core, '.');
  }

  lemma PreRoundTrip(pre: seq<Ident>)
    requires pre != [] && forall i :: 0 <= i < |pre| ==> ValidIdent(pre[i])
    ensures All(Join(IdentTexts(pre), '.'), PreChar)
    ensures Split(Join(IdentTexts(pre), '.'), '.') == IdentTexts(pre)
    ensures forall i :: 0 <= i < |pre| ==> ValidIdentText(IdentTexts(pre)[i])
    ensures ParseIdents(IdentTexts(pre)) == pre
  {
    var texts := IdentTexts(pre);
    forall i | 0 <= i < |texts| ensures ValidIdentText(texts[i]) && ParseIdent(texts[i]) == pre[i] {
      IdentTextRoundTrip(pre[i]);
    }
    JoinCharacters(texts, '.', PreChar);
    SplitJoin(texts, '.');
  }

  function PrintedPieces(v: Version): Pieces {
    Pieces(CoreTexts(v), if v.pre == [] then None else Some(IdentTexts(v.pre)), None)
  }

  lemma CutBody(v: Version)
    requires ValidVersion(v)
    ensures Cut(BodyText(v)) == PrintedPieces(v)
  {
    CoreRoundTrip(v);
    if v.pre == [] {
      assert CoreText(v) + "" == CoreText(v);
      CutCore(CoreText(v));
    } else {
      PreRoundTrip(v.pre);
      CutPrerelease(CoreText(v), Join(IdentTexts(v.pre), '.'));
    }
  }

  lemma FromPrintedPieces(v: Version)
    requires ValidVersion(v)
    ensures ValidPieces(PrintedPieces(v)) && FromPieces(PrintedPieces(v)) == v
  {
    CoreNumbers(v);
    if v.pre != [] {
      PreRoundTrip(v.pre);
    }
  }

  /** Reading a printed version gives the version back. */
  lemma ParsePrint(v: Version)
    requires ValidVersion(v)
    ensures Parse(Print(v)) == Some(v)
  {
    CutBody(v);
    assert Print(v)[1..] == BodyText(v);
    FromPrintedPieces(v);
  }

  /** Canonical text names the version: it is read back as the version it was made from. */
  lemma CanonicalRoundTrip(v: string)
    requires IsValid(v)
    ensures Parse(CanonicalText(v)) == Parse(v)
    ensures CanonicalText(CanonicalText(v)) == CanonicalText(v)
  {
    ParseGivesValid(v);
    ParsePrint(Parse(v).value);
  }

  lemma SameCanonicalText(a: string, b: string)
    requires IsValid(a) && IsValid(b)
    ensures CanonicalText(a) == CanonicalText(b) <==> Parse(a) == Parse(b)
  {
    CanonicalRoundTrip(a);
    CanonicalRoundTrip(b);
  }

  /** What the shorthand "vX" or "vX.Y" leaves out. */
  function Missing(core: seq<string>): string {
    if |core| == 1 then ".0.0" else if |core| == 2 then ".0" else ""
  }

  lemma JoinShort(a: string, b: string, c: string)
    ensures Join([a], '.') == a
    ensures Join([a, b], '.') == a + "." + b
    ensures Join([a, b, c], '.') == a + "." + b + "." + c
  {
    assert [a, b, c][1..] == [b, c] && [b, c][1..] == [c] && [a, b][1..] == [b];
    calc {
      Join([a, b, c], '.');
      a + "." + Join([b, c], '.');
      a + "." + (b + "." + c);
      a + "." + b + "." + c;
    }
  }

  lemma CoreSpelling(p: Pieces)
    requires ValidPieces(p)
    ensures CoreText(FromPieces(p)) == Join(p.core, '.') + Missing(p.core)
  {
    var core := p.core;
    forall i | 0 <= i < |core| ensures DecValue(core[i]) >= 0 && Dec(DecValue(core[i])) == core[i] {
      DecOfValue(core[i]);
    }
    assert Dec(0) == "0";
    var x, y, z := Dec(CoreNumber(core, 0)), Dec(CoreNumber(core, 1)), Dec(CoreNumber(core, 2));
    JoinShort(x, y, z);
    assert CoreText(FromPieces(p)) == x + "." + y + "." + z;
    if |core| == 3 {
      assert core == [x, y, z];
    } else if |core| == 2 {
      assert core == [x, y] && z == "0";
    } else {
      assert core == [x] && y == "0" && z == "0";
    }
  }

  lemma PreSpelling(texts: seq<string>)
    requires forall i :: 0 <= i < |texts| ==> ValidIdentText(texts[i])
    ensures IdentTexts(ParseIdents(texts)) == texts
  {
    forall i | 0 <= i < |texts| ensures IdentText(ParseIdent(texts[i])) == texts[i] {
      if All(texts[i], IsDigit) { DecOfValue(texts[i]); }
    }
  }

  /** The text that the pieces were cut from, up to the build metadata. */
  function PiecesText(p: Pieces): string {
    Join(p.core, '.') + if p.pre.Some? then "-" + Join(p.pre.value, '.') else ""
  }

  lemma CutText(rest: string)
    ensures PiecesText(Cut(rest)) == rest[..Find(rest, '+')]
  {
    var main := rest[..Find(rest, '+')];
    var dash := Find(main, '-');
    JoinSplit(main[..dash], '.');
    if dash < |main| {
      JoinSplit(main[dash + 1..], '.');
      assert main == main[..dash] + ("-" + main[dash + 1..]);
    } else {
      assert main == main[..dash] + "";
    }
  }

  lemma PiecesSpelling(p: Pieces)
    requires ValidPieces(p) && (p.pre.Some? ==> p.pre.value != [])
    ensures BodyText(FromPieces(p)) == PiecesText(p) + Missing(p.core)
  {
    CoreSpelling(p);
    var core := Join(p.core, '.');
    if p.pre.Some? {
      PreSpelling(p.pre.value);
      var pre := "-" + Join(p.pre.value, '.');
      assert core + "" == core && (core + pre) + "" == core + pre;
    } else {
      assert (core + "") + Missing(p.core) == (core + Missing(p.core)) + "";
    }
  }

  /** Canonical text is the version's own text without its build metadata, shorthands filled in. */
  lemma CanonicalSpelling(v: string)
    requires IsValid(v)
    ensures var rest := v[1..];
            CanonicalText(v) == "v" + (rest[..Find(rest, '+')] + Missing(Cut(rest).core))
  {
    PiecesSpelling(Cut(v[1..]));
    CutText(v[1..]);
  }

  // ----- precedence, section 11 -----

  function IdentCmp(a: Ident, b: Ident): int {
    match (a, b)
    case (Numeric(m), Numeric(n)) => IntCmp(m, n)
    case (Numeric(_), Alnum(_)) => -1
    case (Alnum(_), Numeric(_)) => 1
    case (Alnum(s), Alnum(t)) => StrCmp(s, t)
  }

  /** A release is above each of its prereleases; prereleases compare identifier by identifier. */
  function PreCmp(a: seq<Ident>, b: seq<Ident>): int {
    if a == [] then (if b == [] then 0 else 1)
    else if b == [] then -1
    else Lex(IdentCmp, a, b)
  }

  function VersionCmp(a: Version, b: Version): int {
    if a.major != b.major then IntCmp(a.major, b.major)
    else if a.minor != b.minor then IntCmp(a.minor, b.minor)
    else if a.patch != b.patch then IntCmp(a.patch, b.patch)
    else PreCmp(a.pre, b.pre)
  }

  /** semver.Compare: an invalid version is below every valid one. */
  function Compare(v: string, w: string): int {
    match (Parse(v), Parse(w))
    case (Some(a), Some(b)) => VersionCmp(a, b)
    case (Some(_), None) => 1
    case (None, Some(_)) => -1
    case (None, None) => 0
  }

  lemma IdentOrder()
    ensures TotalPreorder(IdentCmp) && Separates(IdentCmp)
  {
    StrOrder();
    forall a, b ensures -1 <= IdentCmp(a, b) <= 1 && IdentCmp(a, b) == -IdentCmp(b, a) {
      if a.Alnum? && b.Alnum? { assert StrCmp(a.text, b.text) == -StrCmp(b.text, a.text); }
    }
    forall a, b, c | IdentCmp(a, b) <= 0 && IdentCmp(b, c) <= 0 ensures IdentCmp(a, c) <= 0 {
      if a.Alnum? && b.Alnum? && c.Alnum? {
        assert StrCmp(a.text, b.text) <= 0 && StrCmp(b.text, c.text) <= 0;
      }
    }
  }

  lemma PreOrder()
    ensures TotalPreorder(PreCmp) && Separates(PreCmp)
  {
    IdentOrder();
    forall a, b ensures -1 <= PreCmp(a, b) <= 1 && PreCmp(a, b) == -PreCmp(b, a) && (PreCmp(a, b) == 0 ==> a == b) {
      LexAntisymmetric(IdentCmp, a, b);
      LexSeparates(IdentCmp, a, b);
    }
    forall a, b, c | PreCmp(a, b) <= 0 && PreCmp(b, c) <= 0 ensures PreCmp(a, c) <= 0 {
      if a != [] && b != [] && c != [] { LexTransitive(IdentCmp, a, b, c); }
    }
  }

  /** Precedence is a total order on versions, build metadata aside. */
  lemma PrecedenceOrder()
    ensures TotalPreorder(VersionCmp) && Separates(VersionCmp)
  {
    PreOrder();
    forall a, b ensures -1 <= VersionCmp(a, b) <= 1 && VersionCmp(a, b) == -VersionCmp(b, a) {
      assert PreCmp(a.pre, b.pre) == -PreCmp(b.pre, a.pre);
    }
    forall a, b, c | VersionCmp(a, b) <= 0 && VersionCmp(b, c) <= 0 ensures VersionCmp(a, c) <= 0 {
      assert PreCmp(a.pre, b.pre) <= 0 && PreCmp(b.pre, c.pre) <= 0 ==> PreCmp(a.pre, c.pre) <= 0;
    }
    forall a, b | VersionCmp(a, b) == 0 ensures a == b {
      assert PreCmp(a.pre, b.pre) == 0;
    }
  }

  /** Section 11 on identifiers: numbers by value and below texts, texts by their characters. */
  ghost predicate IdentBelow(a: Ident, b: Ident) {
    match (a, b)
    case (Numeric(m), Numeric(n)) => m < n
    case (Numeric(_), Alnum(_)) => true
    case (Alnum(_), Numeric(_)) => false
    case (Alnum(s), Alnum(t)) => exists k :: TextBelowAt(s, t, k)
  }

  /** Section 11 on prereleases: none is above all, then the first difference, a longer list being higher. */
  ghost predicate PreBelow(a: seq<Ident>, b: seq<Ident>) {
    a != [] && (b == [] || exists k :: PreBelowAt(a, b, k))
  }

  ghost predicate PreBelowAt(a: seq<Ident>, b: seq<Ident>, k: int) {
    0 <= k <= |a| && k < |b| && a[..k] == b[..k] && (k < |a| ==> IdentBelow(a[k], b[k]))
  }

  lemma IdentCmpIsBelow(a: Ident, b: Ident)
    ensures IdentCmp(a, b) < 0 <==> IdentBelow(a, b)
  {
    if a.Alnum? && b.Alnum? { StrBelow(a.text, b.text); }
  }

  lemma PreCmpIsBelow(a: seq<Ident>, b: seq<Ident>)
    ensures PreCmp(a, b) < 0 <==> PreBelow(a, b)
  {
    IdentOrder();
    LexBelow(IdentCmp, a, b);
    forall k ensures FirstBelow(IdentCmp, a, b, k) <==> PreBelowAt(a, b, k) {
      if 0 <= k < |a| && k < |b| { IdentCmpIsBelow(a[k], b[k]); }
    }
  }

  /** The order is precedence as section 11 describes it, for all versions. */
  lemma PrecedenceBySection11(a: Version, b: Version)
    ensures VersionCmp(a, b) < 0 <==>
              || a.major < b.major
              || (a.major == b.major && a.minor < b.minor)
              || (a.major == b.major && a.minor == b.minor && a.patch < b.patch)
              || (a.major == b.major && a.minor == b.minor && a.patch == b.patch && PreBelow(a.pre, b.pre))
  {
    PreCmpIsBelow(a.pre, b.pre);
  }

  // ----- shorthands and build metadata -----

  lemma OneNumber(x: nat)
    ensures Parse("v" + Dec(x)) == Some(Version(x, 0, 0, []))
  {
    var s := Dec(x);
    CutCore(s);
    FindIs(s, '.', |s|);
    assert ("v" + s)[1..] == s && Split(s, '.') == [s];
    DecRoundTrip(x);
  }

  lemma TwoNumbers(x: nat, y: nat)
    ensures Parse("v" + (Dec(x) + "." + Dec(y))) == Some(Version(x, y, 0, []))
  {
    var s := Dec(x) + "." + Dec(y);
    assert All(s, CoreChar);
    CutCore(s);
    assert [Dec(x), Dec(y)][1..] == [Dec(y)] && Join([Dec(x), Dec(y)], '.') == s;
    SplitJoin([Dec(x), Dec(y)], '.');
    assert ("v" + s)[1..] == s;
    DecRoundTrip(x);
    DecRoundTrip(y);
  }

  /** The shorthands are read with zeros for what they leave out. */
  lemma ShorthandsParse(x: nat, y: nat)
    ensures Parse("v" + Dec(x)) == Some(Version(x, 0, 0, []))
    ensures Parse("v" + (Dec(x) + "." + Dec(y))) == Some(Version(x, y, 0, []))
  {
    OneNumber(x);
    TwoNumbers(x, y);
  }

  lemma CutBuild(main: string, build: string)
    requires '+' !in main
    ensures Cut(main + ("+" + build)) == Cut(main).(build := Some(Split(build, '.')))
  {
    var s := main + ("+" + build);
    assert s[..|main|] == main && s[|main| + 1..] == build;
    FindIs(s, '+', |main|);
    FindIs(main, '+', |main|);
    assert main[..|main|] == main;
  }

  /** A dot-separated identifier of build metadata (section 10). */
  predicate BuildIdent(s: string) {
    s != "" && forall c :: c in s ==> '0' <= c <= '9' || 'a' <= c <= 'z' || 'A' <= c <= 'Z' || c == '-'
  }

  lemma BuildIdentIsValid(s: string)
    ensures ValidBuildText(s) <==> BuildIdent(s)
  {
    if BuildIdent(s) {
      forall i | 0 <= i < |s| ensures IdentChar(s[i]) { assert s[i] in s; }
    }
  }

  predicate WellFormedBuild(build: string) {
    forall i :: 0 <= i < |Split(build, '.')| ==> BuildIdent(Split(build, '.')[i])
  }

  lemma ValidWithBuild(p: Pieces, build: string)
    requires p.build.None?
    ensures var q := p.(build := Some(Split(build, '.')));
            && (ValidPieces(q) <==> ValidPieces(p) && |p.core| == 3 && WellFormedBuild(build))
            && (ValidPieces(q) ==> FromPieces(q) == FromPieces(p))
  {
    var texts := Split(build, '.');
    forall i | 0 <= i < |texts| ensures ValidBuildText(texts[i]) <==> BuildIdent(texts[i]) {
      BuildIdentIsValid(texts[i]);
    }
  }

  /** Build metadata changes nothing: well formed it may follow any full version, and is ignored. */
  lemma BuildIsIgnored(main: string, build: string)
    requires '+' !in main
    ensures Parse("v" + (main + ("+" + build))) ==
            if WellFormedBuild(build) && |Cut(main).core| == 3 then Parse("v" + main) else None
  {
    CutBuild(main, build);
    FindIs(main, '+', |main|);
    ValidWithBuild(Cut(main), build);
    assert ("v" + (main + ("+" + build)))[1..] == main + ("+" + build) && ("v" + main)[1..] == main;
  }
}

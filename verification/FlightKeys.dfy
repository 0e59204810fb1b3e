/** The singleflight keys of moddb/client.go: the three kinds of request never share a flight. */
module FlightKeys {
  import opened ModdbModels
  import opened Options
  import opened Order
  import opened SharedCache
  import opened Text

  function KeyText(k: Key): string {
    match k
    case Catalog => "catalog"
    case ForGameVersion(p) => "catalog:gv:" + p
    case ModKey(i) => "mod:" + i
  }

  /** The kind and the argument of a request can be read off its key. */
  lemma KeyTextShape(k: Key)
    ensures KeyText(k) != "" && KeyText(k)[0] == if k.ModKey? then 'm' else 'c'
    ensures k.Catalog? ==> |KeyText(k)| == 7
    ensures k.ForGameVersion? ==> |KeyText(k)| >= 11 && KeyText(k)[11..] == k.param
    ensures k.ModKey? ==> |KeyText(k)| >= 4 && KeyText(k)[4..] == k.id
  {
  }

  /** Different requests have different keys, so a waiter never gets a value of another kind. */
  lemma KeyTextInjective(a: Key, b: Key)
    ensures KeyText(a) == KeyText(b) <==> a == b
  {
    KeyTextShape(a);
    KeyTextShape(b);
  }

  // ----- the game-version filter -----

  predicate Digits(s: string) { s != "" && All(s, IsDigit) }

  /** ^\d+\.\d+$ */
  predicate IsMajorMinor(s: string) {
    var p := Split(s, '.');
    |p| == 2 && Digits(p[0]) && Digits(p[1])
  }

  /** ^\d+\.\d+\.\d+(?:-(?:dev|pre|rc)\.\d+)?$ */
  predicate IsExactVersion(s: string) {
    var dash := Find(s, '-');
    var core := Split(s[..dash], '.');
    && |core| == 3 && Digits(core[0]) && Digits(core[1]) && Digits(core[2])
    && (dash < |s| ==>
          var tag := Split(s[dash + 1..], '.');
          |tag| == 2 && tag[0] in {"dev", "pre", "rc"} && Digits(tag[1]))
  }

  function TrimSeries(v: string): string {
    if |v| >= 2 && v[|v| - 2..] == ".x" then v[..|v| - 2] else v
  }

  datatype Param = Param(name: string, value: string)

  function GameVersionParam(raw: string): Option<Param> {
    var v := TrimSpace(raw);
    var series := TrimSeries(v);
    if IsMajorMinor(series) then Some(Param("gameversion", series))
    else if IsExactVersion(v) then Some(Param("gv", v))
    else None
  }

  /** The query text; the accepted values contain nothing that query escaping changes. */
  function ParamText(p: Param): string { p.name + "=" + p.value }

  predicate Unreserved(c: char) { IsDigit(c) || IsLower(c) || c == '.' || c == '-' }

  lemma SplitCharacters(s: string, c: char, p: char -> bool)
    requires p(c) && forall k :: 0 <= k < |Split(s, c)| ==> All(Split(s, c)[k], p)
    ensures All(s, p)
  {
    JoinSplit(s, c);
    JoinCharacters(Split(s, c), c, p);
  }

  lemma ExactVersionCharacters(s: string)
    requires IsExactVersion(s)
    ensures All(s, Unreserved)
  {
    var dash := Find(s, '-');
    SplitCharacters(s[..dash], '.', Unreserved);
    if dash < |s| {
      SplitCharacters(s[dash + 1..], '.', Unreserved);
      forall i | dash < i < |s| ensures Unreserved(s[i]) {
        assert s[dash + 1..][i - dash - 1] == s[i];
      }
    }
    forall i | 0 <= i < dash ensures Unreserved(s[i]) {
      assert s[..dash][i] == s[i];
    }
  }

  /** Accepted filters name one of two parameters with a value that needs no escaping. */
  lemma ParamIsPlain(raw: string)
    ensures GameVersionParam(raw).Some? ==>
              var p := GameVersionParam(raw).value;
              && All(p.value, Unreserved) && p.value != ""
              && (p.name == "gameversion" <==> IsMajorMinor(p.value))
              && (p.name == "gv" <==> !IsMajorMinor(p.value))
              && (p.name == "gameversion" ==> TrimSpace(raw) in {p.value, p.value + ".x"})
              && (p.name == "gv" ==> IsExactVersion(p.value) && p.value == TrimSpace(raw))
  {
    var v := TrimSpace(raw);
    assert v == TrimSeries(v) || v == TrimSeries(v) + ".x";
    if IsMajorMinor(TrimSeries(v)) {
      SplitCharacters(TrimSeries(v), '.', Unreserved);
      assert Find("", '.') == 0;
    } else if IsExactVersion(v) {
      ExactVersionCharacters(v);
      if IsMajorMinor(v) {
        NoDash(v);
      }
    }
  }

  lemma NoDash(v: string)
    requires IsMajorMinor(v)
    ensures v[..Find(v, '-')] == v
  {
    SplitCharacters(v, '.', c => IsDigit(c) || c == '.');
    FindIs(v, '-', |v|);
    assert v[..|v|] == v;
  }

  // ----- which filters are accepted -----

  predicate SeriesShape(v: string, a: string, b: string) { Digits(a) && Digits(b) && v == a + "." + b }

  /** The suffix of a development version, or none. */
  predicate TagShape(s: string, tag: string, n: string) {
    s == "" || (tag in ["dev", "pre", "rc"] && Digits(n) && s == "-" + (tag + "." + n))
  }

  predicate ExactShape(v: string, a: string, b: string, c: string, rest: string) {
    Digits(a) && Digits(b) && Digits(c) && v == (a + "." + b + "." + c) + rest
  }

  lemma JoinTwo(a: string, b: string)
    ensures Join([a, b], '.') == a + "." + b
  {
    assert [a, b][1..] == [b];
  }

  lemma JoinThree(a: string, b: string, c: string)
    ensures Join([a, b, c], '.') == a + "." + b + "." + c
  {
    JoinTwo(b, c);
    assert [a, b, c][1..] == [b, c];
    assert a + "." + (b + "." + c) == a + "." + b + "." + c;
  }

  lemma SeriesIsMajorMinor(v: string, a: string, b: string)
    requires SeriesShape(v, a, b)
    ensures IsMajorMinor(v)
  {
    JoinTwo(a, b);
    SplitJoin([a, b], '.');
  }

  lemma MajorMinorIsSeries(v: string) returns (a: string, b: string)
    requires IsMajorMinor(v)
    ensures SeriesShape(v, a, b)
  {
    var p := Split(v, '.');
    a, b := p[0], p[1];
    JoinSplit(v, '.');
    JoinTwo(a, b);
    assert p == [a, b];
  }

  lemma CoreHasNoDash(a: string, b: string, c: string)
    requires Digits(a) && Digits(b) && Digits(c)
    ensures '-' !in a + "." + b + "." + c
    ensures Split(a + "." + b + "." + c, '.') == [a, b, c]
  {
    JoinThree(a, b, c);
    SplitJoin([a, b, c], '.');
  }

  lemma ShapeIsExact(v: string, a: string, b: string, c: string, rest: string, tag: string, n: string)
    requires ExactShape(v, a, b, c, rest) && TagShape(rest, tag, n)
    ensures IsExactVersion(v)
  {
    CoreHasNoDash(a, b, c);
    var core := a + "." + b + "." + c;
    assert v[..|core|] == core;
    FindIs(v, '-', |core|);
    if rest != "" {
      assert v[|core| + 1..] == tag + "." + n;
      JoinTwo(tag, n);
      SplitJoin([tag, n], '.');
    }
  }

  lemma CoreIsShape(core: string) returns (a: string, b: string, c: string)
    requires var p := Split(core, '.'); |p| == 3 && Digits(p[0]) && Digits(p[1]) && Digits(p[2])
    ensures Digits(a) && Digits(b) && Digits(c) && core == a + "." + b + "." + c
  {
    var p := Split(core, '.');
    a, b, c := p[0], p[1], p[2];
    JoinSplit(core, '.');
    JoinThree(a, b, c);
    assert p == [a, b, c];
  }

  lemma TagIsShape(s: string) returns (tag: string, n: string)
    requires var p := Split(s, '.'); |p| == 2 && p[0] in {"dev", "pre", "rc"} && Digits(p[1])
    ensures TagShape("-" + s, tag, n)
  {
    var p := Split(s, '.');
    tag, n := p[0], p[1];
    JoinSplit(s, '.');
    JoinTwo(tag, n);
    assert p == [tag, n];
  }

  lemma ExactIsShape(v: string) returns (a: string, b: string, c: string, rest: string, tag: string, n: string)
    requires IsExactVersion(v)
    ensures ExactShape(v, a, b, c, rest) && TagShape(rest, tag, n)
  {
    var dash := Find(v, '-');
    a, b, c := CoreIsShape(v[..dash]);
    rest, tag, n := v[dash..], "", "";
    assert v == v[..dash] + v[dash..];
    if dash < |v| {
      tag, n := TagIsShape(v[dash + 1..]);
      assert v[dash..] == "-" + v[dash + 1..];
    }
  }

  /** A series x.y or x.y.x is asked for as the series. */
  lemma SeriesAccepted(raw: string, a: string, b: string)
    requires SeriesShape(TrimSpace(raw), a, b) || (Digits(a) && Digits(b) && TrimSpace(raw) == a + "." + b + ".x")
    ensures GameVersionParam(raw) == Some(Param("gameversion", a + "." + b))
  {
    var v := TrimSpace(raw);
    SeriesIsMajorMinor(a + "." + b, a, b);
    if SeriesShape(v, a, b) {
      assert v[|v| - 1] == b[|b| - 1];
    } else {
      assert v[|v| - 2..] == ".x" && v[..|v| - 2] == a + "." + b;
    }
  }

  /** An exact version is asked for as it is. */
  lemma ExactAccepted(raw: string, a: string, b: string, c: string, rest: string, tag: string, n: string)
    requires ExactShape(TrimSpace(raw), a, b, c, rest) && TagShape(rest, tag, n)
    ensures GameVersionParam(raw) == Some(Param("gv", TrimSpace(raw)))
  {
    var v := TrimSpace(raw);
    ShapeIsExact(v, a, b, c, rest, tag, n);
    assert v[|v| - 1] == if rest == "" then c[|c| - 1] else n[|n| - 1];
    ExactIsNoSeries(v, a, b, c, rest);
  }

  lemma ExactIsNoSeries(v: string, a: string, b: string, c: string, rest: string)
    requires ExactShape(v, a, b, c, rest)
    ensures !IsMajorMinor(v)
  {
    CoreHasNoDash(a, b, c);
    var core := a + "." + b + "." + c;
    if IsMajorMinor(v) {
      NoDash(v);
      SplitLonger(core, rest, '.');
    }
  }

  /** Text after a text has no fewer parts. */
  lemma {:induction false} SplitLonger(s: string, rest: string, c: char)
    ensures |Split(s + rest, c)| >= |Split(s, c)|
    decreases |s|
  {
    var n := Find(s, c);
    if n < |s| {
      assert (s + rest)[..n] == s[..n];
      FindIs(s + rest, c, n);
      assert (s + rest)[n + 1..] == s[n + 1..] + rest;
      SplitLonger(s[n + 1..], rest, c);
    }
  }

  ghost predicate HasSeriesShape(v: string) {
    exists a, b :: SeriesShape(v, a, b) || (Digits(a) && Digits(b) && v == a + "." + b + ".x")
  }

  ghost predicate HasExactShape(v: string) {
    exists a, b, c, rest, tag, n :: ExactShape(v, a, b, c, rest) && TagShape(rest, tag, n)
  }

  lemma AcceptedHasShape(raw: string)
    requires GameVersionParam(raw).Some?
    ensures HasSeriesShape(TrimSpace(raw)) || HasExactShape(TrimSpace(raw))
  {
    var v := TrimSpace(raw);
    if IsMajorMinor(TrimSeries(v)) {
      var a, b := MajorMinorIsSeries(TrimSeries(v));
      assert SeriesShape(v, a, b) || v == a + "." + b + ".x";
    } else {
      var a, b, c, rest, tag, n := ExactIsShape(v);
    }
  }

  /** Accepted are exactly the series and the exact versions, with space around them. */
  lemma AcceptedIff(raw: string)
    ensures GameVersionParam(raw).Some? <==> HasSeriesShape(TrimSpace(raw)) || HasExactShape(TrimSpace(raw))
  {
    var v := TrimSpace(raw);
    if a, b :| SeriesShape(v, a, b) || (Digits(a) && Digits(b) && v == a + "." + b + ".x") {
      SeriesAccepted(raw, a, b);
    }
    if a, b, c, rest, tag, n :| ExactShape(v, a, b, c, rest) && TagShape(rest, tag, n) {
      ExactAccepted(raw, a, b, c, rest, tag, n);
    }
    if GameVersionParam(raw).Some? { AcceptedHasShape(raw); }
  }

  lemma ParamTextInjective(p: Param, q: Param)
    requires p.name in {"gameversion", "gv"} && q.name in {"gameversion", "gv"}
    ensures ParamText(p) == ParamText(q) <==> p == q
  {
    var s, t := ParamText(p), ParamText(q);
    if s == t {
      assert s[1] == p.name[1] && t[1] == q.name[1];
      assert p.name == q.name;
      assert s[|p.name| + 1..] == p.value && t[|q.name| + 1..] == q.value;
    }
  }

  /** Two filters share a flight and a cached catalog exactly when they ask the server the same thing. */
  lemma SameFlightSameQuery(a: string, b: string)
    requires GameVersionParam(a).Some? && GameVersionParam(b).Some?
    ensures var p, q := GameVersionParam(a).value, GameVersionParam(b).value;
            KeyText(ForGameVersion(ParamText(p))) == KeyText(ForGameVersion(ParamText(q))) <==> p == q
  {
    var p, q := GameVersionParam(a).value, GameVersionParam(b).value;
    KeyTextInjective(ForGameVersion(ParamText(p)), ForGameVersion(ParamText(q)));
    ParamTextInjective(p, q);
  }
}

/** Which game versions a release supports, for version texts as the server writes them. */
module GameVersionSupport {
  import opened Analysis
  import opened Comparators
  import opened Text

  lemma SplitHead(head: string, c: char, rest: string)
    requires c !in head
    ensures Split(head + ([c] + rest), c) == [head] + Split(rest, c)
  {
    var s := head + ([c] + rest);
    assert s[..|head|] == head && s[|head| + 1..] == rest;
    FindIs(s, c, |head|);
  }

  lemma SplitTwoHeads(a: string, b: string, c: char, rest: string)
    requires c !in a && c !in b
    ensures var p := Split(a + ([c] + (b + ([c] + rest))), c); |p| >= 2 && p[0] == a && p[1] == b
  {
    SplitHead(a, c, b + ([c] + rest));
    SplitHead(b, c, rest);
  }

  lemma HeadEnds(a: string, c: char, u: string)
    requires c !in a
    ensures Find(a + ([c] + u), c) == |a|
  {
    var s := a + ([c] + u);
    assert s[..|a|] == a;
    FindIs(s, c, |a|);
  }

  /** Of texts that go on after a separator, one is a prefix of the other part by part. */
  lemma HeadPrefix(a: string, u: string, b: string, w: string, c: char)
    requires c !in a && c !in b
    ensures a + ([c] + u) <= b + ([c] + w) <==> a == b && u <= w
  {
    var s, t := a + ([c] + u), b + ([c] + w);
    if s <= t {
      HeadEnds(b, c, w);
      assert t[|a|] == c && t[..|a|] == a;
      FindIs(t, c, |a|);
      assert b == t[..|b|];
      assert w == t[|a| + 1..] && u == s[|a| + 1..] && t[..|s|] == s;
      assert w[..|u|] == u;
    }
    if a == b && u <= w {
      assert t[..|s|] == s;
    }
  }

  lemma DecInjective(m: nat, n: nat)
    ensures Dec(m) == Dec(n) <==> m == n
    ensures '.' !in Dec(m)
  {
    DecRoundTrip(m);
    DecRoundTrip(n);
  }

  /** The version from its third number on. */
  function Tail(v: GameVersion): string { Dec(v.z) + ChannelText(v) }

  lemma TextByTail(v: GameVersion)
    ensures VersionText(v) == Dec(v.x) + (['.'] + (Dec(v.y) + (['.'] + Tail(v))))
  {
  }

  /** Of two versions one begins with the two numbers of the other exactly when they are of one series. */
  lemma SeriesPrefix(a: GameVersion, b: GameVersion, rest: string)
    ensures Dec(a.x) + (['.'] + (Dec(a.y) + (['.'] + rest))) <= VersionText(b) <==>
              a.x == b.x && a.y == b.y && rest <= Tail(b)
  {
    DecInjective(a.x, b.x);
    DecInjective(b.x, a.x);
    DecInjective(a.y, b.y);
    DecInjective(b.y, a.y);
    TextByTail(b);
    HeadPrefix(Dec(a.x), Dec(a.y) + (['.'] + rest), Dec(b.x), Dec(b.y) + (['.'] + Tail(b)), '.');
    HeadPrefix(Dec(a.y), rest, Dec(b.y), Tail(b), '.');
  }

  lemma Regroup(a: string, b: string)
    ensures a + "." + b + "." == a + (['.'] + (b + (['.'] + "")))
  {
  }

  /** An exact supported version supports the versions of its series, whatever their patch and tag. */
  lemma SeriesOfVersion(a: GameVersion, b: GameVersion)
    ensures SupportsSeries(VersionText(a), VersionText(b)) <==> a.x == b.x && a.y == b.y
  {
    TextIsPlain(a);
    TrimVisible(VersionText(a));
    TextByTail(a);
    DecInjective(a.x, b.x);
    DecInjective(a.y, b.y);
    SplitTwoHeads(Dec(a.x), Dec(a.y), '.', Tail(a));
    Regroup(Dec(a.x), Dec(a.y));
    SeriesPrefix(a, b, "");
    if VersionText(a) == VersionText(b) { SeriesPrefix(a, b, Tail(a)); }
  }

  /** Space around a supported version does not matter. */
  lemma SeriesOfSpaced(a: GameVersion, b: GameVersion, c: char, d: char)
    requires Blank(c) && Blank(d)
    ensures SupportsSeries([c] + (VersionText(a) + [d]), VersionText(b)) <==> a.x == b.x && a.y == b.y
  {
    TextIsPlain(a);
    TextIsPlain(b);
    TrimVisible(VersionText(a));
    TrimPadded(VersionText(a), c, d);
    assert ([c] + (VersionText(a) + [d]))[0] == c && !Plain(c) && Plain(VersionText(b)[0]);
    SeriesOfVersion(a, b);
    SameSeriesOrEqual(a, b);
  }

  lemma SameSeriesOrEqual(a: GameVersion, b: GameVersion)
    ensures VersionText(a) == VersionText(b) ==> SupportsPrefix(VersionText(a), VersionText(b))
  {
    if VersionText(a) == VersionText(b) {
      TextIsPlain(a);
      TrimVisible(VersionText(a));
      TextByTail(a);
      DecInjective(a.x, b.x);
      DecInjective(a.y, b.y);
      SplitTwoHeads(Dec(a.x), Dec(a.y), '.', Tail(a));
      Regroup(Dec(a.x), Dec(a.y));
      SeriesPrefix(a, b, Tail(a));
      SeriesPrefix(a, b, "");
    }
  }

  /** The requested version begins with the first two parts of the supported one. */
  predicate SupportsPrefix(v: string, requested: string) {
    var p := Split(TrimSpace(v), '.');
    |p| >= 2 && p[0] + "." + p[1] + "." <= requested
  }

  /** A listed text is supported, whatever it is. */
  lemma ListedIsSupported(supported: seq<string>, requested: string)
    requires requested in supported
    ensures SupportsGameVersion(supported, requested)
  {
    var i :| 0 <= i < |supported| && supported[i] == requested;
    assert SupportsSeries(supported[i], requested);
  }

  predicate SameSeries(a: GameVersion, b: GameVersion) { a.x == b.x && a.y == b.y }

  /** A release supports a version exactly when it lists none or one of the same series. */
  lemma SupportIff(supported: seq<GameVersion>, requested: GameVersion)
    ensures SupportsGameVersion(seq(|supported|, i requires 0 <= i < |supported| => VersionText(supported[i])),
                                VersionText(requested)) <==>
            (supported == [] || exists i :: 0 <= i < |supported| && SameSeries(supported[i], requested))
  {
    var texts := seq(|supported|, i requires 0 <= i < |supported| => VersionText(supported[i]));
    forall i | 0 <= i < |supported|
      ensures SupportsSeries(texts[i], VersionText(requested)) <==> SameSeries(supported[i], requested)
    {
      SeriesOfVersion(supported[i], requested);
    }
  }
}

/** The release order of versions/versions.go: a tokenizer and a comparator over its parts. */
module Versions {
  import opened Int64
  import opened Order
  import opened Text

  /** One part of a version: a number (the non-nil pointer of the source) or a word. */
  datatype Part = Num(n: int) | Word(text: string)

  const ZERO := Num(0)

  /** What the tokenizer produces: numbers of a 64-bit int and non-empty words. */
  predicate WellFormed(p: Part) {
    match p
    case Num(n) => 0 <= n <= MAX_INT
    case Word(t) => t != "" && All(t, IsLetter)
  }

  predicate AllWellFormed(ps: seq<Part>) { forall i :: 0 <= i < |ps| ==> WellFormed(ps[i]) }

  // ----- the tokenizer -----

  /** The parts of an already trimmed, lower-cased and unprefixed version. */
  function Parts(v: string): (ps: seq<Part>)
    decreases |v|
  {
    if v == "" then []
    else if IsDigit(v[0]) then
      var j := Run(v, IsDigit);
      [Num(Atoi(v[..j]))] + Parts(v[j..])
    else if IsLetter(v[0]) then
      var j := Run(v, IsLetter);
      [Word(v[..j])] + Parts(v[j..])
    else Parts(v[1..])
  }

  function Clean(v: string): string { TrimPrefix(ToLower(TrimSpace(v)), 'v') }

  function SplitVersion(v: string): seq<Part> { Parts(Clean(v)) }

  /** Where the run of `p` that starts at position `i` ends. */
  function RunEnd(v: string, i: nat, p: char -> bool): (j: nat)
    requires i <= |v|
    ensures i <= j <= |v|
    decreases |v| - i
  {
    if i < |v| && p(v[i]) then RunEnd(v, i + 1, p) else i
  }

  /** The parts from position `i` on. */
  function PartsFrom(v: string, i: nat): seq<Part>
    requires i <= |v|
    decreases |v| - i
  {
    if i == |v| then []
    else if IsDigit(v[i]) then
      var j := RunEnd(v, i + 1, IsDigit);
      [Num(Atoi(v[i..j]))] + PartsFrom(v, j)
    else if IsLetter(v[i]) then
      var j := RunEnd(v, i + 1, IsLetter);
      [Word(v[i..j])] + PartsFrom(v, j)
    else PartsFrom(v, i + 1)
  }

  /** The inner loops of the tokenizer, over digits and over letters. */
  method ScanRun(v: string, i: nat, p: char -> bool) returns (j: nat)
    requires i < |v|
    ensures j == RunEnd(v, i + 1, p)
  {
    j := i + 1;
    while j < |v| && p(v[j])
      invariant i < j <= |v| && RunEnd(v, j, p) == RunEnd(v, i + 1, p)
    {
      j := j + 1;
    }
  }

  method SplitVersionLoop(version: string) returns (out: seq<Part>)
    ensures out == SplitVersion(version)
  {
    var v := TrimPrefix(ToLower(TrimSpace(version)), 'v');
    out := [];
    var i := 0;
    while i < |v|
      invariant 0 <= i <= |v|
      invariant out + PartsFrom(v, i) == PartsFrom(v, 0)
    {
      if IsDigit(v[i]) {
        var j := ScanRun(v, i, IsDigit);
        Shift(out, Num(Atoi(v[i..j])), PartsFrom(v, j));
        out := out + [Num(Atoi(v[i..j]))];
        i := j;
        continue;
      }
      if IsLetter(v[i]) {
        var j := ScanRun(v, i, IsLetter);
        Shift(out, Word(v[i..j]), PartsFrom(v, j));
        out := out + [Word(v[i..j])];
        i := j;
        continue;
      }
      i := i + 1;
    }
    PartsFromStart(v);
  }

  lemma Shift<T>(a: seq<T>, x: T, b: seq<T>)
    ensures a + ([x] + b) == (a + [x]) + b
  {
  }

  lemma PartsFromStart(v: string)
    ensures PartsFrom(v, 0) == Parts(v)
  {
    PartsFromSuffix(v, 0);
    assert v[0..] == v;
  }

  lemma {:induction false} RunEndSuffix(v: string, i: nat, p: char -> bool)
    requires i <= |v|
    ensures RunEnd(v, i, p) == i + Run(v[i..], p)
    decreases |v| - i
  {
    if i < |v| && p(v[i]) {
      RunEndSuffix(v, i + 1, p);
      assert v[i..][1..] == v[i + 1..];
    }
  }

  lemma SliceSuffix(v: string, i: nat, j: nat)
    requires i <= j <= |v|
    ensures v[i..][..j - i] == v[i..j] && v[i..][j - i..] == v[j..]
  {
  }

  lemma NumberAt(v: string, i: nat, j: nat)
    requires i < j <= |v| && IsDigit(v[i]) && j == i + Run(v[i..], IsDigit)
    ensures Parts(v[i..]) == [Num(Atoi(v[i..j]))] + Parts(v[j..])
  {
    SliceSuffix(v, i, j);
  }

  lemma WordAt(v: string, i: nat, j: nat)
    requires i < j <= |v| && IsLetter(v[i]) && j == i + Run(v[i..], IsLetter)
    ensures Parts(v[i..]) == [Word(v[i..j])] + Parts(v[j..])
  {
    SliceSuffix(v, i, j);
  }

  lemma SkipAt(v: string, i: nat)
    requires i < |v| && !IsDigit(v[i]) && !IsLetter(v[i])
    ensures Parts(v[i..]) == Parts(v[i + 1..])
  {
  }

  lemma {:induction false} PartsFromSuffix(v: string, i: nat)
    requires i <= |v|
    ensures PartsFrom(v, i) == Parts(v[i..])
    decreases |v| - i
  {
    if i < |v| {
      if IsDigit(v[i]) {
        var j := RunEnd(v, i, IsDigit);
        RunEndSuffix(v, i, IsDigit);
        NumberAt(v, i, j);
        PartsFromSuffix(v, j);
      } else if IsLetter(v[i]) {
        var j := RunEnd(v, i, IsLetter);
        RunEndSuffix(v, i, IsLetter);
        WordAt(v, i, j);
        PartsFromSuffix(v, j);
      } else {
        SkipAt(v, i);
        PartsFromSuffix(v, i + 1);
      }
    }
  }

  lemma {:induction false} PartsWellFormed(v: string)
    ensures AllWellFormed(Parts(v))
    decreases |v|
  {
    if v == "" {
    } else if IsDigit(v[0]) {
      var j := Run(v, IsDigit);
      PartsWellFormed(v[j..]);
      assert DecValue(v[..j]) >= 0;
    } else if IsLetter(v[0]) {
      PartsWellFormed(v[Run(v, IsLetter)..]);
    } else {
      PartsWellFormed(v[1..]);
    }
  }

  // ----- the order of parts -----

  /** Numbers by value and above every word; words by string order. */
  function PartCmp(x: Part, y: Part): int {
    match (x, y)
    case (Num(m), Num(n)) => IntCmp(m, n)
    case (Num(_), Word(_)) => 1
    case (Word(_), Num(_)) => -1
    case (Word(s), Word(t)) => StrCmp(s, t)
  }

  lemma PartOrder()
    ensures TotalPreorder(PartCmp) && Separates(PartCmp)
  {
    StrOrder();
    forall a, b, c | PartCmp(a, b) <= 0 && PartCmp(b, c) <= 0 ensures PartCmp(a, c) <= 0 {
      if a.Word? && b.Word? && c.Word? {
        assert StrCmp(a.text, b.text) <= 0 && StrCmp(b.text, c.text) <= 0;
      }
    }
    forall a, b ensures -1 <= PartCmp(a, b) <= 1 && PartCmp(a, b) == -PartCmp(b, a) {
      if a.Word? && b.Word? {
        assert StrCmp(a.text, b.text) == -StrCmp(b.text, a.text);
      }
    }
  }

  /** The order of versions: parts compared in turn, the shorter list padded with the number 0. */
  function PartsOrder(a: seq<Part>, b: seq<Part>): int { PaddedLex(PartCmp, ZERO, a, b) }

  function VersionOrder(a: string, b: string): int { PartsOrder(SplitVersion(a), SplitVersion(b)) }

  // ----- the comparator of the source -----

  method TrailingVersionOrder(p: seq<Part>) returns (r: int)
    requires AllWellFormed(p)
    ensures r == PartsOrder(p, []) == -PartsOrder([], p)
  {
    PartOrder();
    PaddedLexAntisymmetric(PartCmp, ZERO, p, []);
    var i := 0;
    while i < |p|
      invariant 0 <= i <= |p|
      invariant PartsOrder(p, []) == PartsOrder(p[i..], [])
    {
      assert WellFormed(p[i]) && HeadOr(p[i..], ZERO) == p[i] && Rest(p[i..]) == p[i + 1..];
      if p[i].Num? && p[i].n != 0 { return 1; }
      if p[i].Word? && p[i].text != "" { return -1; }
      i := i + 1;
    }
    r := 0;
  }

  method CompareVersions(a: string, b: string) returns (r: int)
    ensures r == VersionOrder(a, b)
  {
    PartsWellFormed(Clean(a));
    PartsWellFormed(Clean(b));
    var ap := SplitVersionLoop(a);
    var bp := SplitVersionLoop(b);
    var n := |ap|;
    if |bp| > n { n := |bp|; }
    PartOrder();
    for i := 0 to n
      invariant i <= |ap| && i <= |bp|
      invariant PartsOrder(ap, bp) == PartsOrder(ap[i..], bp[i..])
    {
      if i >= |ap| {
        assert ap[i..] == [];
        var t := TrailingVersionOrder(bp[i..]);
        return -t;
      }
      if i >= |bp| {
        assert bp[i..] == [];
        r := TrailingVersionOrder(ap[i..]);
        return;
      }
      var x, y := ap[i], bp[i];
      assert ap[i..][1..] == ap[i + 1..] && bp[i..][1..] == bp[i + 1..];
      if x.Num? && y.Num? {
        if x.n > y.n { return 1; }
        if x.n < y.n { return -1; }
        continue;
      }
      if x.Num? { return 1; }
      if y.Num? { return -1; }
      LexSeparates(CharCmp, x.text, y.text);
      var c := StrCmp(x.text, y.text);
      if c > 0 { return 1; }
      if c < 0 { return -1; }
    }
    r := 0;
  }

  // ----- what the order promises -----

  lemma VersionOrderIsTotalPreorder()
    ensures TotalPreorder(VersionOrder)
  {
    PartOrder();
    forall a, b ensures -1 <= VersionOrder(a, b) <= 1 && VersionOrder(a, b) == -VersionOrder(b, a) {
      PaddedLexAntisymmetric(PartCmp, ZERO, SplitVersion(a), SplitVersion(b));
    }
    forall a, b, c | VersionOrder(a, b) <= 0 && VersionOrder(b, c) <= 0 ensures VersionOrder(a, c) <= 0 {
      PaddedLexTransitive(PartCmp, ZERO, SplitVersion(a), SplitVersion(b), SplitVersion(c));
    }
  }

  lemma VersionOrderZero(a: string, b: string)
    ensures VersionOrder(a, b) == 0 <==>
            StripPad(SplitVersion(a), ZERO) == StripPad(SplitVersion(b), ZERO)
  {
    PartOrder();
    PaddedLexZero(PartCmp, ZERO, SplitVersion(a), SplitVersion(b));
  }

  /** Which part is below which: words below numbers, numbers by value, words by their characters. */
  ghost predicate PartBelow(x: Part, y: Part) {
    match (x, y)
    case (Num(m), Num(n)) => m < n
    case (Num(_), Word(_)) => false
    case (Word(_), Num(_)) => true
    case (Word(s), Word(t)) => exists k :: TextBelowAt(s, t, k)
  }

  /** The parts agree before `k`, missing ones counting as the number 0, and the first list has the lower part. */
  ghost predicate OlderAt(a: seq<Part>, b: seq<Part>, k: nat) {
    && (forall i: nat :: i < k ==> PaddedAt(a, Num(0), i) == PaddedAt(b, Num(0), i))
    && PartBelow(PaddedAt(a, Num(0), k), PaddedAt(b, Num(0), k))
  }

  lemma PartCmpIsBelow(x: Part, y: Part)
    ensures PartCmp(x, y) < 0 <==> PartBelow(x, y)
  {
    if x.Word? && y.Word? { StrBelow(x.text, y.text); }
  }

  /** A version is older than another exactly when it is at the first part in which they differ. */
  lemma OlderIff(a: string, b: string)
    ensures VersionOrder(a, b) < 0 <==> exists k: nat :: OlderAt(SplitVersion(a), SplitVersion(b), k)
  {
    PartOrder();
    var p, q := SplitVersion(a), SplitVersion(b);
    PaddedLexBelow(PartCmp, ZERO, p, q);
    forall k: nat ensures FirstPaddedBelow(PartCmp, ZERO, p, q, k) <==> OlderAt(p, q, k) {
      PartCmpIsBelow(PaddedAt(p, ZERO, k), PaddedAt(q, ZERO, k));
    }
  }

  lemma LowerIsVisible(s: string)
    requires All(s, Visible)
    ensures All(ToLower(s), Visible) && ToLower(ToLower(s)) == ToLower(s)
  {
  }

  lemma CleanPrefixed(s: string, v: char)
    requires All(s, Visible) && v in "vV" && (s == "" || LowerChar(s[0]) != 'v')
    ensures Clean([v] + s) == ToLower(s) == Clean(s)
  {
    TrimVisible(s);
    TrimVisible([v] + s);
    assert ToLower([v] + s) == ['v'] + ToLower(s);
  }

  /** Case, the space around a version and one leading v do not matter. */
  lemma SpellingIrrelevant(s: string, c: char, d: char)
    requires All(s, Visible) && Blank(c) && Blank(d)
    ensures SplitVersion(ToLower(s)) == SplitVersion(s)
    ensures SplitVersion([c] + (s + [d])) == SplitVersion(s)
    ensures s == "" || LowerChar(s[0]) != 'v' ==> SplitVersion(['v'] + s) == SplitVersion(['V'] + s) == SplitVersion(s)
  {
    TrimVisible(s);
    LowerIsVisible(s);
    TrimVisible(ToLower(s));
    TrimPadded(s, c, d);
    if s == "" || LowerChar(s[0]) != 'v' {
      CleanPrefixed(s, 'v');
      CleanPrefixed(s, 'V');
    }
  }
}

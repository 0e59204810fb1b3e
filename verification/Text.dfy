/** ASCII text: case, white space, decimal numerals, cutting, splitting and joining. */
module Text {
  import opened Int64
  import opened Order

  predicate IsDigit(c: char) { '0' <= c <= '9' }
  predicate IsLower(c: char) { 'a' <= c <= 'z' }
  predicate IsUpper(c: char) { 'A' <= c <= 'Z' }
  predicate IsLetter(c: char) { IsLower(c) || IsUpper(c) }
  predicate IsSpace(c: char) { c == ' ' || 9 as char <= c <= 13 as char }

  predicate All(s: string, p: char -> bool) { forall i :: 0 <= i < |s| ==> p(s[i]) }

  predicate Contains(s: string, t: string) { exists i :: 0 <= i <= |s| && t <= s[i..] }

  // ----- case -----

  function LowerChar(c: char): char {
    if IsUpper(c) then (c as int + 32) as char else c
  }

  function ToLower(s: string): (r: string)
    ensures |r| == |s|
    ensures forall i :: 0 <= i < |s| ==> r[i] == LowerChar(s[i])
  {
    seq(|s|, i requires 0 <= i < |s| => LowerChar(s[i]))
  }

  /** strings.EqualFold on ASCII text. */
  predicate EqualFold(a: string, b: string) { ToLower(a) == ToLower(b) }

  // ----- white space -----

  function TrimLeft(s: string): string {
    if s != [] && IsSpace(s[0]) then TrimLeft(s[1..]) else s
  }

  function TrimRight(s: string): string {
    if s != [] && IsSpace(s[|s| - 1]) then TrimRight(s[..|s| - 1]) else s
  }

  function TrimSpace(s: string): string { TrimRight(TrimLeft(s)) }

  predicate Visible(c: char) { !IsSpace(c) }

  lemma TrimVisible(s: string)
    requires All(s, Visible)
    ensures TrimSpace(s) == s
  {
  }

  /** Blank, tab, line feed, vertical tab, form feed and carriage return. */
  predicate Blank(c: char) { c as int in {32, 9, 10, 11, 12, 13} }

  lemma TrimLeftSpace(c: char, s: string)
    requires Blank(c)
    ensures TrimLeft([c] + s) == TrimLeft(s)
  {
    assert ([c] + s)[1..] == s;
  }

  lemma TrimRightSpace(s: string, c: char)
    requires Blank(c)
    ensures TrimRight(s + [c]) == TrimRight(s)
  {
    assert (s + [c])[..|s|] == s;
  }

  lemma TrimLeftVisible(s: string, t: string)
    requires s != "" && Visible(s[0])
    ensures TrimLeft(s + t) == s + t
  {
  }

  lemma TrimPadded(s: string, c: char, d: char)
    requires All(s, Visible) && Blank(c) && Blank(d)
    ensures TrimSpace([c] + (s + [d])) == s
  {
    TrimLeftSpace(c, s + [d]);
    TrimRightSpace(s, d);
    TrimVisible(s);
    if s == "" {
      assert s + [d] == [d] + s;
      TrimLeftSpace(d, s);
    } else {
      TrimLeftVisible(s, [d]);
      TrimLeftVisible(s, "");
      assert s + "" == s;
    }
  }

  function TrimPrefix(s: string, c: char): string {
    if s != [] && s[0] == c then s[1..] else s
  }

  // ----- string order -----

  function CharCmp(a: char, b: char): int { IntCmp(a as int, b as int) }

  /** strings.Compare. */
  function StrCmp(a: string, b: string): int { Lex(CharCmp, a, b) }

  lemma CharOrder()
    ensures TotalPreorder(CharCmp) && Separates(CharCmp)
  {
  }

  lemma StrOrder()
    ensures TotalPreorder(StrCmp) && Separates(StrCmp)
  {
    CharOrder();
    forall a, b ensures -1 <= StrCmp(a, b) <= 1 && StrCmp(a, b) == -StrCmp(b, a) {
      LexAntisymmetric(CharCmp, a, b);
    }
    forall a, b, c | StrCmp(a, b) <= 0 && StrCmp(b, c) <= 0 ensures StrCmp(a, c) <= 0 {
      LexTransitive(CharCmp, a, b, c);
    }
    forall a, b | StrCmp(a, b) == 0 ensures a == b {
      LexSeparates(CharCmp, a, b);
    }
  }

  /** The texts agree up to `k`, where the first one ends or has the smaller character. */
  predicate TextBelowAt(s: string, t: string, k: int) {
    0 <= k <= |s| && k < |t| && s[..k] == t[..k] && (k < |s| ==> s[k] < t[k])
  }

  lemma StrBelow(s: string, t: string)
    ensures StrCmp(s, t) < 0 <==> exists k :: TextBelowAt(s, t, k)
  {
    CharOrder();
    LexBelow(CharCmp, s, t);
    forall k ensures FirstBelow(CharCmp, s, t, k) <==> TextBelowAt(s, t, k) {}
  }

  // ----- runs -----

  /** The length of the longest prefix of `s` whose characters satisfy `p`. */
  function Run(s: string, p: char -> bool): (n: nat)
    ensures n <= |s|
    ensures All(s[..n], p)
    ensures n < |s| ==> !p(s[n])
  {
    if s == [] || !p(s[0]) then 0 else 1 + Run(s[1..], p)
  }

  lemma {:induction false} RunIs(s: string, p: char -> bool, n: nat)
    requires n <= |s| && All(s[..n], p) && (n < |s| ==> !p(s[n]))
    ensures Run(s, p) == n
  {
    if n > 0 {
      assert s[..n][0] == s[0] && s[1..][..n - 1] == s[..n][1..];
      RunIs(s[1..], p, n - 1);
    }
  }

  // ----- decimal numerals -----

  function Digit(d: nat): char
    requires d < 10
  {
    ('0' as int + d) as char
  }

  function DigitValue(c: char): int { c as int - '0' as int }

  function Dec(n: nat): (s: string)
    ensures s != [] && All(s, IsDigit)
    ensures n > 0 ==> s[0] != '0'
  {
    if n < 10 then [Digit(n)] else Dec(n / 10) + [Digit(n % 10)]
  }

  function DecValue(s: string): (v: int)
    ensures All(s, IsDigit) ==> v >= 0
  {
    if s == [] then 0
    else
      assert All(s, IsDigit) ==> All(s[..|s| - 1], IsDigit) && IsDigit(s[|s| - 1]);
      10 * DecValue(s[..|s| - 1]) + DigitValue(s[|s| - 1])
  }

  lemma {:induction false} DecRoundTrip(n: nat)
    ensures DecValue(Dec(n)) == n
  {
    if n < 10 {
      assert Dec(n)[..0] == [];
    } else {
      DecRoundTrip(n / 10);
      assert Dec(n)[..|Dec(n)| - 1] == Dec(n / 10);
    }
  }

  /** A numeral as SemVer writes it: digits without a superfluous leading zero. */
  predicate Canonical(s: string) {
    s != [] && All(s, IsDigit) && (|s| > 1 ==> s[0] != '0')
  }

  lemma {:induction false} DecValuePositive(s: string)
    requires s != [] && All(s, IsDigit) && s[0] != '0'
    ensures DecValue(s) > 0
  {
    if |s| == 1 {
      assert s[..0] == [];
    } else {
      DecValuePositive(s[..|s| - 1]);
    }
  }

  lemma {:induction false} DecOfValue(s: string)
    requires Canonical(s)
    ensures DecValue(s) >= 0 && Dec(DecValue(s)) == s
  {
    if |s| == 1 {
      assert s[..0] == [];
      assert Dec(DecValue(s)) == [Digit(DigitValue(s[0]))];
    } else {
      var init, last := s[..|s| - 1], s[|s| - 1];
      DecOfValue(init);
      DecValuePositive(init);
      assert DecValue(s) / 10 == DecValue(init) && DecValue(s) % 10 == DigitValue(last);
      assert s == init + [last];
    }
  }

  /** strconv.Atoi on a run of digits, error ignored: out of range saturates at the largest int. */
  function Atoi(s: string): int
  {
    var v := DecValue(s);
    if v > MAX_INT then MAX_INT else v
  }

  // ----- cutting, splitting and joining at a separator -----

  /** The position of the first `c` in `s`, or |s|. */
  function Find(s: string, c: char): (n: nat)
    ensures n <= |s|
    ensures c !in s[..n]
    ensures n < |s| ==> s[n] == c
  {
    if s == [] || s[0] == c then 0 else 1 + Find(s[1..], c)
  }

  lemma {:induction false} FindIs(s: string, c: char, n: nat)
    requires n <= |s| && c !in s[..n] && (n < |s| ==> s[n] == c)
    ensures Find(s, c) == n
  {
    if n > 0 {
      assert s[..n][0] == s[0] && s[1..][..n - 1] == s[..n][1..];
      FindIs(s[1..], c, n - 1);
    }
  }

  /** strings.Split at a one-character separator. */
  function Split(s: string, c: char): (r: seq<string>)
    ensures r != []
    decreases |s|
  {
    var n := Find(s, c);
    if n == |s| then [s] else [s[..n]] + Split(s[n + 1..], c)
  }

  function Join(parts: seq<string>, c: char): string {
    if parts == [] then ""
    else if |parts| == 1 then parts[0]
    else parts[0] + [c] + Join(parts[1..], c)
  }

  lemma {:induction false} SplitJoin(parts: seq<string>, c: char)
    requires parts != [] && forall i :: 0 <= i < |parts| ==> c !in parts[i]
    ensures Split(Join(parts, c), c) == parts
  {
    var s := Join(parts, c);
    if |parts| == 1 {
      FindIs(s, c, |s|);
    } else {
      SplitJoin(parts[1..], c);
      assert s[..|parts[0]|] == parts[0];
      FindIs(s, c, |parts[0]|);
      assert s[|parts[0]| + 1..] == Join(parts[1..], c);
    }
  }

  lemma JoinCons(head: string, rest: seq<string>, c: char)
    requires rest != []
    ensures Join([head] + rest, c) == head + [c] + Join(rest, c)
  {
  }

  lemma CutAt(s: string, n: nat)
    requires n < |s|
    ensures s[..n] + [s[n]] + s[n + 1..] == s
  {
  }

  lemma {:induction false} JoinSplit(s: string, c: char)
    ensures Join(Split(s, c), c) == s
    decreases |s|
  {
    var n := Find(s, c);
    if n < |s| {
      JoinSplit(s[n + 1..], c);
      JoinCons(s[..n], Split(s[n + 1..], c), c);
      CutAt(s, n);
    }
  }

  lemma {:induction false} JoinCharacters(parts: seq<string>, c: char, p: char -> bool)
    requires p(c) && forall i :: 0 <= i < |parts| ==> All(parts[i], p)
    ensures All(Join(parts, c), p)
  {
    if |parts| > 1 {
      JoinCharacters(parts[1..], c, p);
    }
  }
}

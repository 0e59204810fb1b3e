/** Three-way comparators (negative, zero, positive) and their lexicographic lifts. */
module Order {

  function IntCmp(a: int, b: int): int {
    if a < b then -1 else if a > b then 1 else 0
  }

  /** A comparator into {-1, 0, 1} that is antisymmetric, total and transitive. */
  ghost predicate TotalPreorder<T(!new)>(cmp: (T, T) -> int) {
    && (forall a, b :: -1 <= cmp(a, b) <= 1 && cmp(a, b) == -cmp(b, a))
    && (forall a, b, c :: cmp(a, b) <= 0 && cmp(b, c) <= 0 ==> cmp(a, c) <= 0)
  }

  /** Only identical values compare equal. */
  ghost predicate Separates<T(!new)>(cmp: (T, T) -> int) {
    forall a, b :: cmp(a, b) == 0 ==> a == b
  }

  /** Lexicographic order in which a proper prefix comes first. */
  function Lex<T>(cmp: (T, T) -> int, a: seq<T>, b: seq<T>): int {
    if a == [] then (if b == [] then 0 else -1)
    else if b == [] then 1
    else
      var c := cmp(a[0], b[0]);
      if c != 0 then c else Lex(cmp, a[1..], b[1..])
  }

  lemma {:induction false} LexAntisymmetric<T(!new)>(cmp: (T, T) -> int, a: seq<T>, b: seq<T>)
    requires TotalPreorder(cmp)
    ensures -1 <= Lex(cmp, a, b) <= 1
    ensures Lex(cmp, a, b) == -Lex(cmp, b, a)
  {
    if a != [] && b != [] {
      LexAntisymmetric(cmp, a[1..], b[1..]);
    }
  }

  lemma {:induction false} LexTransitive<T(!new)>(cmp: (T, T) -> int, a: seq<T>, b: seq<T>, c: seq<T>)
    requires TotalPreorder(cmp)
    requires Lex(cmp, a, b) <= 0 && Lex(cmp, b, c) <= 0
    ensures Lex(cmp, a, c) <= 0
  {
    if a != [] && b != [] && c != [] {
      assert cmp(b[0], a[0]) == -cmp(a[0], b[0]);
      assert cmp(c[0], b[0]) == -cmp(b[0], c[0]);
      assert cmp(c[0], a[0]) == -cmp(a[0], c[0]);
      if cmp(a[0], b[0]) == 0 && cmp(b[0], c[0]) == 0 {
        LexTransitive(cmp, a[1..], b[1..], c[1..]);
      }
    }
  }

  lemma {:induction false} LexSeparates<T(!new)>(cmp: (T, T) -> int, a: seq<T>, b: seq<T>)
    requires TotalPreorder(cmp) && Separates(cmp)
    ensures Lex(cmp, a, b) == 0 <==> a == b
  {
    if a == [] || b == [] {
    } else {
      LexSeparates(cmp, a[1..], b[1..]);
      assert cmp(a[0], b[0]) == -cmp(b[0], a[0]);
      if a[0] == b[0] && a[1..] == b[1..] {
        assert a == [a[0]] + a[1..] == b;
      }
    }
  }

  /** Lexicographic order in which the shorter sequence is extended with `pad` for ever. */
  function PaddedLex<T>(cmp: (T, T) -> int, pad: T, a: seq<T>, b: seq<T>): int
    decreases |a| + |b|
  {
    if a == [] && b == [] then 0
    else
      var c := cmp(HeadOr(a, pad), HeadOr(b, pad));
      if c != 0 then c else PaddedLex(cmp, pad, Rest(a), Rest(b))
  }

  function HeadOr<T>(s: seq<T>, pad: T): T {
    if s == [] then pad else s[0]
  }

  function Rest<T>(s: seq<T>): seq<T> {
    if s == [] then [] else s[1..]
  }

  lemma {:induction false} PaddedLexAntisymmetric<T(!new)>(cmp: (T, T) -> int, pad: T, a: seq<T>, b: seq<T>)
    requires TotalPreorder(cmp)
    ensures -1 <= PaddedLex(cmp, pad, a, b) <= 1
    ensures PaddedLex(cmp, pad, a, b) == -PaddedLex(cmp, pad, b, a)
    decreases |a| + |b|
  {
    if a != [] || b != [] {
      PaddedLexAntisymmetric(cmp, pad, Rest(a), Rest(b));
    }
  }

  lemma {:induction false} PaddedLexTransitive<T(!new)>(cmp: (T, T) -> int, pad: T, a: seq<T>, b: seq<T>, c: seq<T>)
    requires TotalPreorder(cmp)
    requires PaddedLex(cmp, pad, a, b) <= 0 && PaddedLex(cmp, pad, b, c) <= 0
    ensures PaddedLex(cmp, pad, a, c) <= 0
    decreases |a| + |b| + |c|
  {
    if a != [] || b != [] || c != [] {
      var x, y, z := HeadOr(a, pad), HeadOr(b, pad), HeadOr(c, pad);
      assert cmp(x, y) == -cmp(y, x) && cmp(y, z) == -cmp(z, y) && cmp(x, z) == -cmp(z, x);
      if cmp(x, y) == 0 && cmp(y, z) == 0 {
        PaddedLexTransitive(cmp, pad, Rest(a), Rest(b), Rest(c));
      }
    }
  }

  /** `s` without the copies of `pad` at its end. */
  function StripPad<T(==)>(s: seq<T>, pad: T): seq<T> {
    if s != [] && s[|s| - 1] == pad then StripPad(s[..|s| - 1], pad) else s
  }

  lemma {:induction false} StripPadCons<T>(s: seq<T>, pad: T)
    requires s != []
    ensures StripPad(s, pad) ==
            if s[0] == pad && StripPad(s[1..], pad) == [] then [] else [s[0]] + StripPad(s[1..], pad)
  {
    if s[|s| - 1] == pad {
      if |s| > 1 {
        StripPadCons(s[..|s| - 1], pad);
        assert s[..|s| - 1][1..] == s[1..][..|s| - 2];
      }
    } else if |s| > 1 {
      assert s == [s[0]] + s[1..];
    }
  }

  lemma {:induction false} PaddedLexZero<T(!new)>(cmp: (T, T) -> int, pad: T, a: seq<T>, b: seq<T>)
    requires TotalPreorder(cmp) && Separates(cmp)
    ensures PaddedLex(cmp, pad, a, b) == 0 <==> StripPad(a, pad) == StripPad(b, pad)
    decreases |a| + |b|
  {
    if a != [] || b != [] {
      PaddedLexZero(cmp, pad, Rest(a), Rest(b));
      if a != [] { StripPadCons(a, pad); }
      if b != [] { StripPadCons(b, pad); }
      var x, y := HeadOr(a, pad), HeadOr(b, pad);
      assert cmp(x, y) == -cmp(y, x);
      if x == y {
        assert cmp(x, y) == 0;
      } else {
        assert cmp(x, y) != 0;
        assert StripPad(a, pad) != [] ==> StripPad(a, pad)[0] == x;
        assert StripPad(b, pad) != [] ==> StripPad(b, pad)[0] == y;
      }
      if a != [] && b != [] && x == y {
        assert StripPad(a, pad) != [] ==> StripPad(a, pad)[1..] == StripPad(a[1..], pad);
        assert StripPad(b, pad) != [] ==> StripPad(b, pad)[1..] == StripPad(b[1..], pad);
      }
    }
  }

  // ----- the lexicographic orders without recursion -----

  /** The sequences agree up to `k`, where the first one ends or has the smaller element. */
  predicate FirstBelow<T(==)>(cmp: (T, T) -> int, a: seq<T>, b: seq<T>, k: int) {
    && 0 <= k <= |a| && k <= |b| && a[..k] == b[..k]
    && if k == |a| then k < |b| else k < |b| && cmp(a[k], b[k]) < 0
  }

  lemma FirstBelowRest<T>(cmp: (T, T) -> int, a: seq<T>, b: seq<T>, k: int)
    requires a != [] && b != [] && a[0] == b[0] && k > 0
    ensures FirstBelow(cmp, a, b, k) <==> FirstBelow(cmp, a[1..], b[1..], k - 1)
  {
    if k <= |a| && k <= |b| {
      var x, y := a[1..], b[1..];
      assert a[..k] == [a[0]] + x[..k - 1] && b[..k] == [b[0]] + y[..k - 1];
      assert a[..k][1..] == x[..k - 1] && b[..k][1..] == y[..k - 1];
    }
  }

  lemma {:induction false} LexBelow<T(!new)>(cmp: (T, T) -> int, a: seq<T>, b: seq<T>)
    requires TotalPreorder(cmp) && Separates(cmp)
    ensures Lex(cmp, a, b) < 0 <==> exists k :: FirstBelow(cmp, a, b, k)
  {
    if a == [] || b == [] {
      assert FirstBelow(cmp, a, b, 0) <==> Lex(cmp, a, b) < 0;
    } else {
      assert cmp(a[0], a[0]) == -cmp(a[0], a[0]);
      if a[0] == b[0] {
        LexBelow(cmp, a[1..], b[1..]);
        if k :| FirstBelow(cmp, a[1..], b[1..], k) {
          FirstBelowRest(cmp, a, b, k + 1);
        }
        if k :| FirstBelow(cmp, a, b, k) {
          FirstBelowRest(cmp, a, b, k);
        }
      } else {
        assert FirstBelow(cmp, a, b, 0) <==> Lex(cmp, a, b) < 0;
        forall k | k > 0 ensures !FirstBelow(cmp, a, b, k) {
          if k <= |a| && k <= |b| { assert a[..k][0] == a[0] && b[..k][0] == b[0]; }
        }
      }
    }
  }

  /** The element at a position, the padding beyond the end. */
  function PaddedAt<T>(s: seq<T>, pad: T, i: nat): T { if i < |s| then s[i] else pad }

  /** The padded sequences agree before `k`, where the first one has the smaller element. */
  ghost predicate FirstPaddedBelow<T(!new)>(cmp: (T, T) -> int, pad: T, a: seq<T>, b: seq<T>, k: nat) {
    && (forall i: nat :: i < k ==> PaddedAt(a, pad, i) == PaddedAt(b, pad, i))
    && cmp(PaddedAt(a, pad, k), PaddedAt(b, pad, k)) < 0
  }

  lemma PaddedRest<T>(s: seq<T>, pad: T, i: nat)
    ensures PaddedAt(Rest(s), pad, i) == PaddedAt(s, pad, i + 1)
  {
  }

  lemma FirstPaddedRest<T(!new)>(cmp: (T, T) -> int, pad: T, a: seq<T>, b: seq<T>, k: nat)
    requires HeadOr(a, pad) == HeadOr(b, pad)
    ensures FirstPaddedBelow(cmp, pad, a, b, k + 1) <==> FirstPaddedBelow(cmp, pad, Rest(a), Rest(b), k)
  {
    forall i: nat ensures PaddedAt(Rest(a), pad, i) == PaddedAt(a, pad, i + 1) { PaddedRest(a, pad, i); }
    forall i: nat ensures PaddedAt(Rest(b), pad, i) == PaddedAt(b, pad, i + 1) { PaddedRest(b, pad, i); }
    if FirstPaddedBelow(cmp, pad, Rest(a), Rest(b), k) {
      forall i: nat | i < k + 1 ensures PaddedAt(a, pad, i) == PaddedAt(b, pad, i) {
        if i > 0 { assert PaddedAt(Rest(a), pad, i - 1) == PaddedAt(Rest(b), pad, i - 1); }
      }
    }
    if FirstPaddedBelow(cmp, pad, a, b, k + 1) {
      forall i: nat | i < k ensures PaddedAt(Rest(a), pad, i) == PaddedAt(Rest(b), pad, i) {
        assert PaddedAt(a, pad, i + 1) == PaddedAt(b, pad, i + 1);
      }
    }
  }

  lemma PaddedSameHead<T(!new)>(cmp: (T, T) -> int, pad: T, a: seq<T>, b: seq<T>)
    requires HeadOr(a, pad) == HeadOr(b, pad) && cmp(HeadOr(a, pad), HeadOr(b, pad)) == 0
    ensures (exists k: nat :: FirstPaddedBelow(cmp, pad, a, b, k)) <==>
            exists k: nat :: FirstPaddedBelow(cmp, pad, Rest(a), Rest(b), k)
  {
    if k: nat :| FirstPaddedBelow(cmp, pad, a, b, k) {
      assert PaddedAt(a, pad, 0) == HeadOr(a, pad) && PaddedAt(b, pad, 0) == HeadOr(b, pad);
      FirstPaddedRest(cmp, pad, a, b, k - 1);
    }
    if k: nat :| FirstPaddedBelow(cmp, pad, Rest(a), Rest(b), k) {
      FirstPaddedRest(cmp, pad, a, b, k);
    }
  }

  lemma PaddedOtherHead<T(!new)>(cmp: (T, T) -> int, pad: T, a: seq<T>, b: seq<T>)
    requires HeadOr(a, pad) != HeadOr(b, pad)
    ensures (exists k: nat :: FirstPaddedBelow(cmp, pad, a, b, k)) <==> cmp(HeadOr(a, pad), HeadOr(b, pad)) < 0
  {
    assert PaddedAt(a, pad, 0) == HeadOr(a, pad) && PaddedAt(b, pad, 0) == HeadOr(b, pad);
    assert FirstPaddedBelow(cmp, pad, a, b, 0) <==> cmp(HeadOr(a, pad), HeadOr(b, pad)) < 0;
  }

  lemma {:induction false} PaddedLexBelow<T(!new)>(cmp: (T, T) -> int, pad: T, a: seq<T>, b: seq<T>)
    requires TotalPreorder(cmp) && Separates(cmp)
    ensures PaddedLex(cmp, pad, a, b) < 0 <==> exists k: nat :: FirstPaddedBelow(cmp, pad, a, b, k)
    decreases |a| + |b|
  {
    var x, y := HeadOr(a, pad), HeadOr(b, pad);
    assert cmp(x, x) == -cmp(x, x) && cmp(pad, pad) == -cmp(pad, pad);
    if a != [] || b != [] {
      if x == y {
        PaddedLexBelow(cmp, pad, Rest(a), Rest(b));
        PaddedSameHead(cmp, pad, a, b);
      } else {
        PaddedOtherHead(cmp, pad, a, b);
      }
    }
  }
}

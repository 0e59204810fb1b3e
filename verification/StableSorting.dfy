/**
 Stable sorting by a `less` function, the contract of Go's sort.SliceStable: what a stable sort
 of a sequence is, that there is exactly one, and an in-place insertion sort that computes it.
 */
module StableSorting {

  ghost predicate StrictWeakOrder<T(!new)>(less: (T, T) -> bool) {
    && (forall a, b :: less(a, b) ==> !less(b, a))
    && (forall a, b, c :: less(a, b) ==> less(a, c) || less(c, b))
  }

  predicate Tied<T>(less: (T, T) -> bool, x: T, y: T) { !less(x, y) && !less(y, x) }

  /** The elements of `s` tied with `x`, in their order. */
  function Ties<T>(less: (T, T) -> bool, x: T, s: seq<T>): seq<T> {
    if s == [] then []
    else Ties(less, x, s[..|s| - 1]) + if Tied(less, x, s[|s| - 1]) then [s[|s| - 1]] else []
  }

  ghost predicate Sorted<T>(less: (T, T) -> bool, s: seq<T>) {
    forall i, j :: 0 <= i < j < |s| ==> !less(s[j], s[i])
  }

  /** `out` is a permutation of `s`, sorted, with tied elements in their original order. */
  ghost predicate IsStableSort<T(!new)>(less: (T, T) -> bool, s: seq<T>, out: seq<T>) {
    && multiset(out) == multiset(s)
    && Sorted(less, out)
    && (forall x :: Ties(less, x, out) == Ties(less, x, s))
  }

  function Insert<T>(less: (T, T) -> bool, s: seq<T>, x: T): seq<T> {
    if s == [] || !less(x, s[|s| - 1]) then s + [x]
    else Insert(less, s[..|s| - 1], x) + [s[|s| - 1]]
  }

  function StableSort<T>(less: (T, T) -> bool, s: seq<T>): (r: seq<T>) {
    if s == [] then [] else Insert(less, StableSort(less, s[..|s| - 1]), s[|s| - 1])
  }

  lemma {:induction false} InsertPermutes<T>(less: (T, T) -> bool, s: seq<T>, x: T)
    ensures multiset(Insert(less, s, x)) == multiset(s) + multiset{x}
  {
    if s != [] && less(x, s[|s| - 1]) {
      InsertPermutes(less, s[..|s| - 1], x);
      assert s == s[..|s| - 1] + [s[|s| - 1]];
    }
  }

  lemma {:induction false} InsertSorts<T(!new)>(less: (T, T) -> bool, s: seq<T>, x: T)
    requires StrictWeakOrder(less) && Sorted(less, s)
    ensures Sorted(less, Insert(less, s, x))
  {
    if s != [] && less(x, s[|s| - 1]) {
      var init, last := s[..|s| - 1], s[|s| - 1];
      InsertSorts(less, init, x);
      InsertPermutes(less, init, x);
      var r := Insert(less, init, x);
      forall i | 0 <= i < |r| ensures !less(last, r[i]) {
        assert r[i] in multiset(r);
        assert r[i] == x || r[i] in init;
      }
    } else if s != [] {
      forall i | 0 <= i < |s| ensures !less(x, s[i]) {
        assert i < |s| - 1 ==> !less(s[|s| - 1], s[i]);
      }
    }
  }

  lemma {:induction false} InsertTies<T(!new)>(less: (T, T) -> bool, s: seq<T>, x: T, y: T)
    requires StrictWeakOrder(less)
    ensures Ties(less, y, Insert(less, s, x)) == Ties(less, y, s) + if Tied(less, y, x) then [x] else []
  {
    if s != [] && less(x, s[|s| - 1]) {
      var init, last := s[..|s| - 1], s[|s| - 1];
      InsertTies(less, init, x, y);
      assert Insert(less, s, x)[..|Insert(less, init, x)|] == Insert(less, init, x);
    } else {
      assert (s + [x])[..|s|] == s;
    }
  }

  lemma {:induction false} StableSortIsStable<T(!new)>(less: (T, T) -> bool, s: seq<T>)
    requires StrictWeakOrder(less)
    ensures IsStableSort(less, s, StableSort(less, s))
  {
    if s != [] {
      var init, last := s[..|s| - 1], s[|s| - 1];
      StableSortIsStable(less, init);
      InsertPermutes(less, StableSort(less, init), last);
      InsertSorts(less, StableSort(less, init), last);
      assert s == init + [last];
      forall x ensures Ties(less, x, StableSort(less, s)) == Ties(less, x, s) {
        InsertTies(less, StableSort(less, init), last, x);
      }
    }
  }

  lemma {:induction false} TiesDropLast<T(!new)>(less: (T, T) -> bool, a: seq<T>, b: seq<T>, x: T)
    requires a != [] && b != [] && a[|a| - 1] == b[|b| - 1]
    requires Ties(less, x, a) == Ties(less, x, b)
    ensures Ties(less, x, a[..|a| - 1]) == Ties(less, x, b[..|b| - 1])
  {
    var a', b' := Ties(less, x, a[..|a| - 1]), Ties(less, x, b[..|b| - 1]);
    assert a' == Ties(less, x, a)[..|a'|] && b' == Ties(less, x, b)[..|b'|];
  }

  lemma {:induction false} TiesOnly<T>(less: (T, T) -> bool, x: T, s: seq<T>)
    ensures forall y :: y in Ties(less, x, s) ==> y in s && Tied(less, x, y)
    ensures forall y :: y in s && Tied(less, x, y) ==> y in Ties(less, x, s)
  {
    if s != [] {
      TiesOnly(less, x, s[..|s| - 1]);
      assert s == s[..|s| - 1] + [s[|s| - 1]];
    }
  }

  /** Two sorted sequences with the same ties have the same last element. */
  lemma SameLast<T(!new)>(less: (T, T) -> bool, a: seq<T>, b: seq<T>)
    requires StrictWeakOrder(less) && Sorted(less, a) && Sorted(less, b)
    requires forall x :: Ties(less, x, a) == Ties(less, x, b)
    requires a != [] && b != []
    ensures a[|a| - 1] == b[|b| - 1]
  {
    var x, y := a[|a| - 1], b[|b| - 1];
    assert Tied(less, x, x) && Tied(less, y, y);
    TiesOnly(less, x, a);
    TiesOnly(less, x, b);
    TiesOnly(less, y, a);
    TiesOnly(less, y, b);
    assert Ties(less, x, a) == Ties(less, x, b) && Ties(less, y, a) == Ties(less, y, b);
    assert x in b && y in a;
    assert !less(y, x) && !less(x, y);
    assert Ties(less, x, a)[|Ties(less, x, a)| - 1] == x;
    assert Ties(less, x, b)[|Ties(less, x, b)| - 1] == y;
  }

  lemma {:induction false} TiesDetermine<T(!new)>(less: (T, T) -> bool, a: seq<T>, b: seq<T>)
    requires StrictWeakOrder(less) && Sorted(less, a) && Sorted(less, b)
    requires forall x :: Ties(less, x, a) == Ties(less, x, b)
    ensures a == b
  {
    if a == [] {
      if b != [] {
        TiesOnly(less, b[0], b);
        assert Tied(less, b[0], b[0]) && Ties(less, b[0], a) == [];
        assert false;
      }
    } else if b == [] {
      TiesOnly(less, a[0], a);
      assert Tied(less, a[0], a[0]) && Ties(less, a[0], b) == [];
      assert false;
    } else {
      SameLast(less, a, b);
      var a', b' := a[..|a| - 1], b[..|b| - 1];
      forall x ensures Ties(less, x, a') == Ties(less, x, b') {
        assert Ties(less, x, a) == Ties(less, x, b);
        TiesDropLast(less, a, b, x);
      }
      TiesDetermine(less, a', b');
      assert a == a[..|a| - 1] + [a[|a| - 1]] && b == b[..|b| - 1] + [b[|b| - 1]];
    }
  }

  /** There is exactly one stable sort, so any implementation of sort.SliceStable computes it. */
  lemma StableSortUnique<T(!new)>(less: (T, T) -> bool, s: seq<T>, out: seq<T>)
    requires StrictWeakOrder(less)
    ensures IsStableSort(less, s, out) <==> out == StableSort(less, s)
  {
    StableSortIsStable(less, s);
    if IsStableSort(less, s, out) {
      forall x ensures Ties(less, x, out) == Ties(less, x, StableSort(less, s)) {
        assert Ties(less, x, out) == Ties(less, x, s) == Ties(less, x, StableSort(less, s));
      }
      TiesDetermine(less, out, StableSort(less, s));
    }
  }

  /** Two sorted permutations of one multiset differ only inside groups of tied elements. */
  lemma SortedPermutationsTie<T(!new)>(less: (T, T) -> bool, a: seq<T>, b: seq<T>, k: nat)
    requires StrictWeakOrder(less) && Sorted(less, a) && Sorted(less, b)
    requires multiset(a) == multiset(b) && k < |a|
    ensures |a| == |b| && Tied(less, a[k], b[k])
  {
    assert |a| == |multiset(a)| && |b| == |multiset(b)|;
    NotBefore(less, a, b, k);
    NotBefore(less, b, a, k);
  }

  lemma NotBefore<T(!new)>(less: (T, T) -> bool, a: seq<T>, b: seq<T>, k: nat)
    requires StrictWeakOrder(less) && Sorted(less, a) && Sorted(less, b)
    requires multiset(a) == multiset(b) && k < |a| == |b|
    ensures !less(a[k], b[k])
  {
    if less(a[k], b[k]) {
      // the first k + 1 elements of a would all be among the first k of b
      var low, high := a[..k + 1], b[k..];
      assert |multiset(low)| == k + 1 && |multiset(b[..k])| == k;
      assert a == low + a[k + 1..] && b == b[..k] + high;
      forall x | x in multiset(low) ensures multiset(low)[x] <= multiset(b[..k])[x] {
        var i :| 0 <= i < |low| && low[i] == x;
        assert i < k ==> !less(a[k], a[i]);
        forall j | 0 <= j < |high| ensures high[j] != x {
          assert j > 0 ==> !less(b[k + j], b[k]);
        }
        assert multiset(high)[x] == 0;
        assert multiset(low)[x] <= multiset(a)[x] == multiset(b)[x];
      }
      Smaller(multiset(low), multiset(b[..k]));
    }
  }

  lemma Smaller<T>(a: multiset<T>, b: multiset<T>)
    requires a <= b
    ensures |a| <= |b|
  {
    assert b == a + (b - a);
  }

  lemma InsertShift<T>(less: (T, T) -> bool, s: seq<T>, x: T, j: nat)
    requires 0 < j <= |s| && less(x, s[j - 1])
    ensures Insert(less, s[..j], x) + s[j..] == Insert(less, s[..j - 1], x) + s[j - 1..]
  {
    assert s[..j][..j - 1] == s[..j - 1] && s[j - 1..] == [s[j - 1]] + s[j..];
  }

  /** Moves `a[i]` down to its place among the sorted elements before it. */
  method SinkInto<T>(a: array<T>, i: nat, less: (T, T) -> bool)
    requires i < a.Length
    modifies a
    ensures a[..i + 1] == Insert(less, old(a[..i]), old(a[i]))
    ensures a[i + 1..] == old(a[i + 1..])
  {
    ghost var s, x := a[..i], a[i];
    var j := i;
    assert s[..i] == s && s[i..] == [];
    while j > 0 && less(a[j], a[j - 1])
      invariant 0 <= j <= i && a[j] == x
      invariant forall k :: 0 <= k < j ==> a[k] == s[k]
      invariant forall k :: j < k <= i ==> a[k] == s[k - 1]
      invariant forall k :: i < k < a.Length ==> a[k] == old(a[k])
      invariant Insert(less, s, x) == Insert(less, s[..j], x) + s[j..]
    {
      InsertShift(less, s, x, j);
      a[j], a[j - 1] := a[j - 1], a[j];
      j := j - 1;
    }
    assert a[..i + 1] == (s[..j] + [x]) + s[j..];
  }

  /** sort.SliceStable as an insertion sort in place. */
  method SliceStable<T>(a: array<T>, less: (T, T) -> bool)
    modifies a
    ensures a[..] == StableSort(less, old(a[..]))
  {
    ghost var was := a[..];
    var i := 0;
    while i < a.Length
      invariant 0 <= i <= a.Length
      invariant a[..i] == StableSort(less, was[..i])
      invariant a[i..] == was[i..]
    {
      assert was[..i + 1][..i] == was[..i] && a[i] == a[i..][0];
      assert was[i + 1..] == was[i..][1..] && a[i + 1..] == a[i..][1..];
      SinkInto(a, i, less);
      i := i + 1;
    }
    assert a[..] == a[..i] && was == was[..i];
  }

  /** An element at two positions counts twice. */
  lemma Twice<T>(s: seq<T>, i: nat, j: nat)
    requires i < j < |s| && s[i] == s[j]
    ensures multiset(s)[s[i]] >= 2
  {
    assert s == s[..i] + [s[i]] + s[i + 1..j] + [s[j]] + s[j + 1..];
  }
}

/** The collect-and-sort part of Catalog.fetch in versions/versions.go. */
module VersionCatalog {
  import opened Options
  import opened Order
  import opened StableSorting
  import opened Versions

  /** A downloadable release; fields other than the identity play no part in the order. */
  datatype Release = Release(id: string, channel: string, filename: string, url: string, size: int,
                             checksum: string, latest: bool)

  predicate NewerFirst(x: Release, y: Release) { VersionOrder(x.id, y.id) > 0 }

  lemma NewerFirstIsStrictWeak()
    ensures StrictWeakOrder(NewerFirst)
  {
    VersionOrderIsTotalPreorder();
    forall a, b, c | NewerFirst(a, b) ensures NewerFirst(a, c) || NewerFirst(c, b) {
      assert VersionOrder(a.id, b.id) == -VersionOrder(b.id, a.id);
      assert VersionOrder(a.id, c.id) <= 0 && VersionOrder(c.id, b.id) <= 0 ==> VersionOrder(a.id, b.id) <= 0;
    }
    forall a, b | NewerFirst(a, b) ensures !NewerFirst(b, a) {
      assert VersionOrder(a.id, b.id) == -VersionOrder(b.id, a.id);
    }
  }

  /** The releases accepted from `payload` when its keys are visited in `order`. */
  function Accepted<F>(payload: map<string, F>, accept: (string, F) -> Option<Release>,
                       order: seq<string>): seq<Release>
    requires forall k :: k in order ==> k in payload
  {
    if order == [] then []
    else
      Accepted(payload, accept, order[..|order| - 1]) + AcceptedOne(payload, accept, order[|order| - 1])
  }

  function AcceptedOne<F>(payload: map<string, F>, accept: (string, F) -> Option<Release>, id: string): seq<Release>
    requires id in payload
  {
    match accept(id, payload[id])
    case Some(release) => [release]
    case None => []
  }

  /** `order` visits every key of `payload` once. */
  ghost predicate Enumerates<F>(payload: map<string, F>, order: seq<string>) {
    multiset(order) == multiset(payload.Keys)
  }

  lemma EnumeratesKeys<F>(payload: map<string, F>, order: seq<string>)
    requires Enumerates(payload, order)
    ensures forall k :: k in order ==> k in payload
  {
    forall k | k in order ensures k in payload {
      assert k in multiset(order);
    }
  }

  function Listing<F>(payload: map<string, F>, accept: (string, F) -> Option<Release>, order: seq<string>): seq<Release>
    requires forall k :: k in order ==> k in payload
  {
    StableSort(NewerFirst, Accepted(payload, accept, order))
  }

  /**
   Ranges over the payload in an arbitrary order, as Go ranges over a map, and sorts in place.
   `accept` stands for the platform lookup and parseRelease, `supported` for distributionFor.
   */
  method Collect<F>(payload: map<string, F>, accept: (string, F) -> Option<Release>, supported: bool)
    returns (out: seq<Release>, ghost order: seq<string>)
    ensures !supported ==> out == []
    ensures supported ==> Enumerates(payload, order)
    ensures supported ==> (forall k :: k in order ==> k in payload) && out == Listing(payload, accept, order)
  {
    out, order := [], [];
    if !supported { return; }
    var todo := payload.Keys;
    while todo != {}
      invariant todo <= payload.Keys
      invariant multiset(order) + multiset(todo) == multiset(payload.Keys)
      invariant forall k :: k in order ==> k in payload
      invariant out == Accepted(payload, accept, order)
      decreases todo
    {
      var id :| id in todo;
      var entry := accept(id, payload[id]);
      if entry.Some? {
        out := out + [entry.value];
      }
      assert (order + [id])[..|order|] == order;
      assert multiset(todo) == multiset(todo - {id}) + multiset{id};
      order, todo := order + [id], todo - {id};
    }
    var result := new Release[|out|](i requires 0 <= i < |out| => out[i]);
    assert result[..] == out;
    SliceStable(result, NewerFirst);
    out := result[..];
  }

  lemma {:induction false} AcceptedSplit<F>(payload: map<string, F>, accept: (string, F) -> Option<Release>,
                                            a: seq<string>, b: seq<string>)
    requires forall k :: k in a + b ==> k in payload
    ensures forall k :: k in a || k in b ==> k in payload
    ensures Accepted(payload, accept, a + b) == Accepted(payload, accept, a) + Accepted(payload, accept, b)
  {
    assert forall k :: k in a || k in b ==> k in a + b;
    if b == [] {
      assert a + b == a;
    } else {
      var init := b[..|b| - 1];
      assert (a + b)[..|a + b| - 1] == a + init;
      AcceptedSplit(payload, accept, a, init);
    }
  }

  lemma AcceptedWithout<F>(payload: map<string, F>, accept: (string, F) -> Option<Release>, order: seq<string>, k: nat)
    requires forall id :: id in order ==> id in payload
    requires k < |order|
    ensures multiset(Accepted(payload, accept, order)) ==
            multiset(Accepted(payload, accept, order[..k] + order[k + 1..])) +
            multiset(AcceptedOne(payload, accept, order[k]))
  {
    var before, id, after := order[..k], order[k], order[k + 1..];
    assert order == before + ([id] + after);
    AcceptedSplit(payload, accept, before, [id] + after);
    AcceptedSplit(payload, accept, [id], after);
    AcceptedSplit(payload, accept, before, after);
    assert [id][..0] == [];
  }

  lemma Remove<T>(s: seq<T>, k: nat)
    requires k < |s|
    ensures multiset(s[..k] + s[k + 1..]) == multiset(s) - multiset{s[k]}
  {
    assert s == s[..k] + [s[k]] + s[k + 1..];
  }

  lemma SameMember<T>(a: seq<T>, b: seq<T>) returns (k: nat)
    requires multiset(a) == multiset(b) && a != []
    ensures k < |b| && b[k] == a[|a| - 1]
  {
    assert a[|a| - 1] in multiset(b);
    k :| k < |b| && b[k] == a[|a| - 1];
  }

  /** Which releases are accepted does not depend on the order of the visits. */
  lemma {:induction false} AcceptedPermutes<F>(payload: map<string, F>, accept: (string, F) -> Option<Release>,
                                               a: seq<string>, b: seq<string>)
    requires forall k :: k in a || k in b ==> k in payload
    requires multiset(a) == multiset(b)
    ensures multiset(Accepted(payload, accept, a)) == multiset(Accepted(payload, accept, b))
  {
    if a == [] {
      assert |multiset(b)| == 0;
    } else {
      var last := |a| - 1;
      var k := SameMember(a, b);
      var a', b' := a[..last] + a[last + 1..], b[..k] + b[k + 1..];
      Remove(a, last);
      Remove(b, k);
      AcceptedPermutes(payload, accept, a', b');
      AcceptedWithout(payload, accept, a, last);
      AcceptedWithout(payload, accept, b, k);
    }
  }

  /** Newest first, and exactly the accepted releases. */
  lemma ListingIsNewestFirst<F>(payload: map<string, F>, accept: (string, F) -> Option<Release>, order: seq<string>)
    requires forall k :: k in order ==> k in payload
    ensures multiset(Listing(payload, accept, order)) == multiset(Accepted(payload, accept, order))
    ensures var out := Listing(payload, accept, order);
            forall i, j :: 0 <= i < j < |out| ==> VersionOrder(out[i].id, out[j].id) >= 0
  {
    NewerFirstIsStrictWeak();
    VersionOrderIsTotalPreorder();
    StableSortIsStable(NewerFirst, Accepted(payload, accept, order));
    var out := Listing(payload, accept, order);
    forall i, j | 0 <= i < j < |out| ensures VersionOrder(out[i].id, out[j].id) >= 0 {
      assert !NewerFirst(out[j], out[i]);
      assert VersionOrder(out[i].id, out[j].id) == -VersionOrder(out[j].id, out[i].id);
    }
  }

  /** Two newest-first listings of the same releases agree position by position up to equality. */
  lemma ListingsTie(a: seq<Release>, b: seq<Release>)
    requires Sorted(NewerFirst, a) && Sorted(NewerFirst, b) && multiset(a) == multiset(b)
    ensures |a| == |b| && forall k :: 0 <= k < |a| ==> VersionOrder(a[k].id, b[k].id) == 0
  {
    NewerFirstIsStrictWeak();
    VersionOrderIsTotalPreorder();
    assert |a| == |multiset(a)| == |multiset(b)| == |b|;
    forall k | 0 <= k < |a| ensures VersionOrder(a[k].id, b[k].id) == 0 {
      SortedPermutationsTie(NewerFirst, a, b, k);
      assert VersionOrder(a[k].id, b[k].id) == -VersionOrder(b[k].id, a[k].id);
    }
  }

  /** No two listed releases have IDs that compare equal. */
  ghost predicate NoTies(s: seq<Release>) {
    forall x, y :: x in s && y in s && VersionOrder(x.id, y.id) == 0 ==> x == y
  }

  /** Two iteration orders give the same releases and differ only among IDs that compare equal. */
  lemma ListingOrderIrrelevant<F>(payload: map<string, F>, accept: (string, F) -> Option<Release>,
                                  first: seq<string>, second: seq<string>)
    requires Enumerates(payload, first) && Enumerates(payload, second)
    ensures forall k :: k in first || k in second ==> k in payload
    ensures var r, s := Listing(payload, accept, first), Listing(payload, accept, second);
            && multiset(r) == multiset(s) && |r| == |s|
            && (forall k :: 0 <= k < |r| ==> VersionOrder(r[k].id, s[k].id) == 0)
            && (NoTies(r) ==> r == s)
  {
    EnumeratesKeys(payload, first);
    EnumeratesKeys(payload, second);
    AcceptedPermutes(payload, accept, first, second);
    NewerFirstIsStrictWeak();
    StableSortIsStable(NewerFirst, Accepted(payload, accept, first));
    StableSortIsStable(NewerFirst, Accepted(payload, accept, second));
    var r, s := Listing(payload, accept, first), Listing(payload, accept, second);
    ListingsTie(r, s);
    if NoTies(r) {
      forall k | 0 <= k < |r| ensures r[k] == s[k] {
        assert s[k] in multiset(s);
        assert s[k] in r;
      }
    }
  }

  // ----- what is listed -----

  /** The keys whose file is accepted. */
  function AcceptedKeys<F>(payload: map<string, F>, accept: (string, F) -> Option<Release>,
                           order: seq<string>): set<string>
    requires forall k :: k in order ==> k in payload
  {
    set k | k in order && accept(k, payload[k]).Some?
  }

  lemma {:induction false} AcceptedMembers<F>(payload: map<string, F>, accept: (string, F) -> Option<Release>,
                                              order: seq<string>, r: Release)
    requires forall k :: k in order ==> k in payload
    ensures r in Accepted(payload, accept, order) <==> exists k :: k in order && accept(k, payload[k]) == Some(r)
  {
    if order != [] {
      var init, last := order[..|order| - 1], order[|order| - 1];
      AcceptedMembers(payload, accept, init, r);
      assert order == init + [last];
      assert last in order;
    }
  }

  lemma {:induction false} AcceptedCount<F>(payload: map<string, F>, accept: (string, F) -> Option<Release>,
                                            order: seq<string>)
    requires forall k :: k in order ==> k in payload
    requires forall i, j :: 0 <= i < j < |order| ==> order[i] != order[j]
    ensures |Accepted(payload, accept, order)| == |AcceptedKeys(payload, accept, order)|
  {
    if order != [] {
      var init, last := order[..|order| - 1], order[|order| - 1];
      AcceptedCount(payload, accept, init);
      assert order == init + [last];
      assert last !in init;
      assert AcceptedKeys(payload, accept, order) ==
             AcceptedKeys(payload, accept, init) + if accept(last, payload[last]).Some? then {last} else {};
    }
  }

  lemma EnumeratesOnce<F>(payload: map<string, F>, order: seq<string>)
    requires Enumerates(payload, order)
    ensures forall k :: k in order <==> k in payload
    ensures forall i, j :: 0 <= i < j < |order| ==> order[i] != order[j]
  {
    EnumeratesKeys(payload, order);
    forall k | k in payload ensures k in order {
      assert k in multiset(payload.Keys);
      assert k in multiset(order);
    }
    forall i, j | 0 <= i < j < |order| ensures order[i] != order[j] {
      if order[i] == order[j] { Twice(order, i, j); }
    }
  }

  /** Listed is exactly what is accepted: one release for every accepted file and no other. */
  lemma ListingIsExact<F>(payload: map<string, F>, accept: (string, F) -> Option<Release>, order: seq<string>)
    requires Enumerates(payload, order)
    ensures forall k :: k in order ==> k in payload
    ensures var out := Listing(payload, accept, order);
            && (forall r :: r in out <==> exists k :: k in payload && accept(k, payload[k]) == Some(r))
            && |out| == |set k | k in payload && accept(k, payload[k]).Some?|
  {
    EnumeratesOnce(payload, order);
    ListingIsNewestFirst(payload, accept, order);
    AcceptedCount(payload, accept, order);
    var out, accepted := Listing(payload, accept, order), Accepted(payload, accept, order);
    assert |out| == |multiset(out)| == |multiset(accepted)| == |accepted|;
    assert AcceptedKeys(payload, accept, order) == set k | k in payload && accept(k, payload[k]).Some?;
    forall r ensures r in out <==> exists k :: k in payload && accept(k, payload[k]) == Some(r) {
      AcceptedMembers(payload, accept, order, r);
      assert r in out <==> r in multiset(out);
      assert r in accepted <==> r in multiset(accepted);
    }
  }
}

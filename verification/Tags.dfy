/** ListTags of moddb/client.go: counting tags into a map and listing them in order. */
module Tags {
  import opened ModdbModels
  import opened Options
  import opened Order
  import opened StableSorting
  import opened Text

  datatype Tag = Tag(name: string, count: nat)

  /** All tags of the catalog, entry after entry. */
  function Occurrences(items: seq<Mod>): seq<string> {
    if items == [] then [] else Occurrences(items[..|items| - 1]) + items[|items| - 1].tags
  }

  /** How many of the names are `k` in lower case. */
  function CountOf(names: seq<string>, k: string): nat {
    if names == [] then 0
    else CountOf(names[..|names| - 1], k) + if ToLower(names[|names| - 1]) == k then 1 else 0
  }

  /** The first of the names that is `k` in lower case. */
  function FirstOf(names: seq<string>, k: string): Option<string> {
    if names == [] then None
    else if ToLower(names[0]) == k then Some(names[0])
    else FirstOf(names[1..], k)
  }

  function Entry(names: seq<string>, k: string): Option<Tag> {
    match FirstOf(names, k)
    case None => None
    case Some(name) => Some(Tag(name, CountOf(names, k)))
  }

  lemma {:induction false} CountAndFirst(names: seq<string>, k: string)
    ensures FirstOf(names, k).Some? <==> CountOf(names, k) > 0
    ensures FirstOf(names, k).Some? <==> exists i :: 0 <= i < |names| && ToLower(names[i]) == k
    ensures FirstOf(names, k).Some? ==> ToLower(FirstOf(names, k).value) == k
  {
    if names != [] {
      CountAndFirst(names[1..], k);
      CountCons(names, k);
      if i :| 0 <= i < |names[1..]| && ToLower(names[1..][i]) == k {
        assert names[i + 1] == names[1..][i];
      }
      assert forall i :: 0 < i < |names| ==> names[i] == names[1..][i - 1];
    }
  }

  lemma {:induction false} CountCons(names: seq<string>, k: string)
    requires names != []
    ensures CountOf(names, k) == (if ToLower(names[0]) == k then 1 else 0) + CountOf(names[1..], k)
  {
    if |names| > 1 {
      CountCons(names[..|names| - 1], k);
      assert names[..|names| - 1][1..] == names[1..][..|names| - 2];
    }
  }

  lemma {:induction false} FirstAppend(names: seq<string>, x: string, k: string)
    ensures FirstOf(names + [x], k) ==
            if FirstOf(names, k).Some? then FirstOf(names, k) else if ToLower(x) == k then Some(x) else None
  {
    if names == [] {
      assert names + [x] == [x];
    } else {
      assert (names + [x])[1..] == names[1..] + [x];
      FirstAppend(names[1..], x, k);
    }
  }

  lemma EntryAppend(names: seq<string>, x: string, k: string)
    ensures Entry(names + [x], k) ==
            if ToLower(x) != k then Entry(names, k)
            else if Entry(names, k).None? then Some(Tag(x, 1))
            else Some(Entry(names, k).value.(count := Entry(names, k).value.count + 1))
  {
    FirstAppend(names, x, k);
    CountAndFirst(names, k);
    assert (names + [x])[..|names|] == names;
  }

  /** What the list promises: lower-case names strictly increasing, each the first spelling with its count. */
  ghost predicate IsTagList(names: seq<string>, out: seq<Tag>) {
    && (forall i, j :: 0 <= i < j < |out| ==> StrCmp(ToLower(out[i].name), ToLower(out[j].name)) < 0)
    && (forall i :: 0 <= i < |out| ==> Entry(names, ToLower(out[i].name)) == Some(out[i]))
    && (forall k :: Entry(names, k).Some? ==> Listed(out, k))
  }

  predicate Listed(out: seq<Tag>, k: string) { exists i :: 0 <= i < |out| && ToLower(out[i].name) == k }

  // ----- the method -----

  ghost predicate Counted(counts: map<string, Tag>, names: seq<string>) {
    forall k :: (if k in counts then Some(counts[k]) else None) == Entry(names, k)
  }

  /** Counts one tag, as the inner loop does. */
  method CountTag(counts: map<string, Tag>, name: string, ghost names: seq<string>) returns (r: map<string, Tag>)
    requires Counted(counts, names)
    ensures Counted(r, names + [name])
  {
    var k := ToLower(name);
    r := counts;
    if k !in r {
      r := r[k := Tag(name, 0)];
    }
    r := r[k := r[k].(count := r[k].count + 1)];
    forall key ensures (if key in r then Some(r[key]) else None) == Entry(names + [name], key) {
      EntryAppend(names, name, key);
      assert (if key in counts then Some(counts[key]) else None) == Entry(names, key);
    }
  }

  method CountTags(items: seq<Mod>) returns (counts: map<string, Tag>)
    ensures Counted(counts, Occurrences(items))
  {
    counts := map[];
    assert items[..|items|] == items;
    for i := 0 to |items|
      invariant Counted(counts, Occurrences(items[..i]))
    {
      var tags := items[i].tags;
      assert items[..i + 1][..i] == items[..i];
      ghost var before := Occurrences(items[..i]);
      assert before + tags[..0] == before;
      for j := 0 to |tags|
        invariant Counted(counts, before + tags[..j])
      {
        counts := CountTag(counts, tags[j], before + tags[..j]);
        assert (before + tags[..j]) + [tags[j]] == before + tags[..j + 1];
      }
      assert tags[..|tags|] == tags;
    }
  }

  predicate NameBefore(a: Tag, b: Tag) { StrCmp(ToLower(a.name), ToLower(b.name)) < 0 }

  lemma NameBeforeIsStrictWeak()
    ensures StrictWeakOrder(NameBefore)
  {
    StrOrder();
    forall a, b | NameBefore(a, b) ensures !NameBefore(b, a) {
      assert StrCmp(ToLower(a.name), ToLower(b.name)) == -StrCmp(ToLower(b.name), ToLower(a.name));
    }
    forall a, b, c | NameBefore(a, b) ensures NameBefore(a, c) || NameBefore(c, b) {
      var x, y, z := ToLower(a.name), ToLower(b.name), ToLower(c.name);
      assert StrCmp(x, y) == -StrCmp(y, x) && StrCmp(y, z) == -StrCmp(z, y) && StrCmp(x, z) == -StrCmp(z, x);
      assert StrCmp(y, z) <= 0 && StrCmp(z, x) <= 0 ==> StrCmp(y, x) <= 0;
    }
  }

  /** The tags of the map in the order of an arbitrary iteration. */
  ghost predicate Collects(counts: map<string, Tag>, out: seq<Tag>) {
    && (forall i :: 0 <= i < |out| ==> ToLower(out[i].name) in counts && counts[ToLower(out[i].name)] == out[i])
    && (forall i, j :: 0 <= i < j < |out| ==> ToLower(out[i].name) != ToLower(out[j].name))
    && (forall k :: k in counts ==> Listed(out, k))
  }

  /** The iteration under way: the keys in `todo` are still to come. */
  ghost predicate Collecting(counts: map<string, Tag>, todo: set<string>, out: seq<Tag>) {
    && (forall i :: 0 <= i < |out| ==>
          ToLower(out[i].name) in counts && counts[ToLower(out[i].name)] == out[i] && ToLower(out[i].name) !in todo)
    && (forall i, j :: 0 <= i < j < |out| ==> ToLower(out[i].name) != ToLower(out[j].name))
    && (forall k :: k in counts && k !in todo ==> Listed(out, k))
  }

  lemma CollectStep(counts: map<string, Tag>, todo: set<string>, out: seq<Tag>, k: string)
    requires Collecting(counts, todo, out) && k in todo && k in counts && ToLower(counts[k].name) == k
    ensures Collecting(counts, todo - {k}, out + [counts[k]])
  {
    var out' := out + [counts[k]];
    forall key | key in counts && key !in todo - {k} ensures Listed(out', key) {
      if key == k {
        assert ToLower(out'[|out|].name) == key;
      } else {
        var i :| 0 <= i < |out| && ToLower(out[i].name) == key;
        assert ToLower(out'[i].name) == key;
      }
    }
  }

  method CollectTags(counts: map<string, Tag>, ghost names: seq<string>) returns (out: seq<Tag>)
    requires Counted(counts, names)
    ensures Collects(counts, out)
  {
    out := [];
    var todo := counts.Keys;
    while todo != {}
      invariant todo <= counts.Keys && Collecting(counts, todo, out)
      decreases todo
    {
      var k :| k in todo;
      assert (if k in counts then Some(counts[k]) else None) == Entry(names, k);
      CountAndFirst(names, k);
      CollectStep(counts, todo, out, k);
      out := out + [counts[k]];
      todo := todo - {k};
    }
  }

  /** Ranges over the counters in an arbitrary order, as Go ranges over a map. */
  method ListTags(items: seq<Mod>) returns (out: seq<Tag>)
    ensures IsTagList(Occurrences(items), out)
  {
    var counts := CountTags(items);
    var list := CollectTags(counts, Occurrences(items));
    var v := new Tag[|list|](i requires 0 <= i < |list| => list[i]);
    assert v[..] == list;
    SliceStable(v, NameBefore);
    out := v[..];
    NameBeforeIsStrictWeak();
    StableSortIsStable(NameBefore, list);
    SortedTags(Occurrences(items), counts, list, out);
  }

  /** Any sort of the collected tags by name will do, stable or not. */
  lemma SortedTags(names: seq<string>, counts: map<string, Tag>, list: seq<Tag>, out: seq<Tag>)
    requires Counted(counts, names) && Collects(counts, list)
    requires multiset(out) == multiset(list) && Sorted(NameBefore, out)
    ensures IsTagList(names, out)
  {
    DistinctPermutes(list, out);
    StrOrder();
    forall i, j | 0 <= i < j < |out| ensures StrCmp(ToLower(out[i].name), ToLower(out[j].name)) < 0 {
      assert !NameBefore(out[j], out[i]);
      var x, y := ToLower(out[i].name), ToLower(out[j].name);
      assert StrCmp(x, y) == -StrCmp(y, x) && (StrCmp(x, y) == 0 ==> x == y);
    }
    forall i | 0 <= i < |out| ensures Entry(names, ToLower(out[i].name)) == Some(out[i]) {
      assert out[i] in multiset(list);
      var k := ToLower(out[i].name);
      assert (if k in counts then Some(counts[k]) else None) == Entry(names, k);
    }
    forall k | Entry(names, k).Some? ensures Listed(out, k) {
      assert (if k in counts then Some(counts[k]) else None) == Entry(names, k);
      var i :| 0 <= i < |list| && ToLower(list[i].name) == k;
      assert list[i] in multiset(out);
    }
  }

  /** Distinct names stay distinct in a permutation. */
  lemma DistinctPermutes(a: seq<Tag>, b: seq<Tag>)
    requires multiset(a) == multiset(b)
    requires forall i, j :: 0 <= i < j < |a| ==> ToLower(a[i].name) != ToLower(a[j].name)
    ensures forall i, j :: 0 <= i < j < |b| ==> ToLower(b[i].name) != ToLower(b[j].name)
  {
    forall i, j | 0 <= i < j < |b| ensures ToLower(b[i].name) != ToLower(b[j].name) {
      assert b[i] in multiset(a) && b[j] in multiset(a);
      var p :| 0 <= p < |a| && a[p] == b[i];
      var q :| 0 <= q < |a| && a[q] == b[j];
      if p == q {
        Twice(b, i, j);
        Once(a, p);
      }
    }
  }

  lemma Once(s: seq<Tag>, p: nat)
    requires p < |s| && forall i, j :: 0 <= i < j < |s| ==> ToLower(s[i].name) != ToLower(s[j].name)
    ensures multiset(s)[s[p]] == 1
  {
    assert s == s[..p] + [s[p]] + s[p + 1..];
    assert s[p] !in s[..p] && s[p] !in s[p + 1..];
    assert multiset(s[..p])[s[p]] == 0 && multiset(s[p + 1..])[s[p]] == 0;
  }

  // ----- what the promise determines -----

  function Keys(out: seq<Tag>): set<string> { set i | 0 <= i < |out| :: ToLower(out[i].name) }

  /** The list is the same for every iteration order of the map. */
  lemma TagListIsUnique(names: seq<string>, a: seq<Tag>, b: seq<Tag>)
    requires IsTagList(names, a) && IsTagList(names, b)
    ensures a == b
  {
    forall k ensures k in Keys(a) <==> k in Keys(b) {
      assert k in Keys(a) <==> Listed(a, k);
      assert k in Keys(b) <==> Listed(b, k);
    }
    SameKeysSameTags(names, a, b);
  }

  ghost predicate Increasing(names: seq<string>, out: seq<Tag>) {
    && (forall i, j :: 0 <= i < j < |out| ==> StrCmp(ToLower(out[i].name), ToLower(out[j].name)) < 0)
    && (forall i :: 0 <= i < |out| ==> Entry(names, ToLower(out[i].name)) == Some(out[i]))
  }

  lemma KeysDropLast(names: seq<string>, a: seq<Tag>)
    requires Increasing(names, a) && a != []
    ensures Keys(a[..|a| - 1]) == Keys(a) - {ToLower(a[|a| - 1].name)}
  {
    StrOrder();
    var init, last := a[..|a| - 1], ToLower(a[|a| - 1].name);
    forall i | 0 <= i < |init| ensures ToLower(init[i].name) != last {
      assert StrCmp(ToLower(a[i].name), last) < 0;
      assert StrCmp(last, last) == -StrCmp(last, last);
    }
    assert forall i :: 0 <= i < |init| ==> init[i] == a[i];
  }

  lemma LastIsGreatest(names: seq<string>, a: seq<Tag>, k: string)
    requires Increasing(names, a) && k in Keys(a)
    ensures a != [] && StrCmp(k, ToLower(a[|a| - 1].name)) <= 0
  {
    StrOrder();
    var i :| 0 <= i < |a| && ToLower(a[i].name) == k;
    assert StrCmp(k, k) == -StrCmp(k, k);
  }

  lemma SameLastTag(names: seq<string>, a: seq<Tag>, b: seq<Tag>)
    requires Increasing(names, a) && Increasing(names, b) && Keys(a) == Keys(b) && a != [] && b != []
    ensures a[|a| - 1] == b[|b| - 1]
  {
    var x, y := ToLower(a[|a| - 1].name), ToLower(b[|b| - 1].name);
    assert x in Keys(a) && y in Keys(b);
    LastIsGreatest(names, a, y);
    LastIsGreatest(names, b, x);
    StrOrder();
    assert StrCmp(x, y) == -StrCmp(y, x);
    assert x == y;
    assert Some(a[|a| - 1]) == Entry(names, x) == Some(b[|b| - 1]);
  }

  lemma KeysEmpty(out: seq<Tag>)
    ensures Keys(out) == {} <==> out == []
  {
    if out != [] {
      assert ToLower(out[0].name) in Keys(out);
    }
  }

  lemma {:induction false} SameKeysSameTags(names: seq<string>, a: seq<Tag>, b: seq<Tag>)
    requires Increasing(names, a) && Increasing(names, b) && Keys(a) == Keys(b)
    ensures a == b
  {
    if a == [] || b == [] {
      KeysEmpty(a);
      KeysEmpty(b);
    } else {
      var a', b' := a[..|a| - 1], b[..|b| - 1];
      SameLastTag(names, a, b);
      KeysDropLast(names, a);
      KeysDropLast(names, b);
      SameKeysSameTags(names, a', b');
      assert a == a' + [a[|a| - 1]] && b == b' + [b[|b| - 1]];
    }
  }

  function Total(out: seq<Tag>): nat {
    if out == [] then 0 else Total(out[..|out| - 1]) + out[|out| - 1].count
  }

  /** The counts of the listed names over `names`, whatever the entries themselves count. */
  function TotalOver(out: seq<Tag>, names: seq<string>): nat {
    if out == [] then 0
    else TotalOver(out[..|out| - 1], names) + CountOf(names, ToLower(out[|out| - 1].name))
  }

  lemma {:induction false} TotalAppend(out: seq<Tag>, names: seq<string>, x: string)
    requires forall i, j :: 0 <= i < j < |out| ==> ToLower(out[i].name) != ToLower(out[j].name)
    ensures TotalOver(out, names + [x]) == TotalOver(out, names) + if Listed(out, ToLower(x)) then 1 else 0
  {
    if out != [] {
      var init, last := out[..|out| - 1], out[|out| - 1];
      TotalAppend(init, names, x);
      assert (names + [x])[..|names|] == names;
      assert forall i :: 0 <= i < |init| ==> init[i] == out[i];
      assert Listed(out, ToLower(x)) <==> Listed(init, ToLower(x)) || ToLower(last.name) == ToLower(x) by {
        if Listed(init, ToLower(x)) {
          var i :| 0 <= i < |init| && ToLower(init[i].name) == ToLower(x);
          assert ToLower(out[i].name) == ToLower(x);
        }
      }
    }
  }

  lemma {:induction false} TotalOfListed(out: seq<Tag>, names: seq<string>)
    requires forall i, j :: 0 <= i < j < |out| ==> ToLower(out[i].name) != ToLower(out[j].name)
    requires forall i :: 0 <= i < |names| ==> Listed(out, ToLower(names[i]))
    ensures TotalOver(out, names) == |names|
  {
    if names == [] {
      TotalOfNone(out);
    } else {
      var init, x := names[..|names| - 1], names[|names| - 1];
      TotalOfListed(out, init);
      TotalAppend(out, init, x);
      assert init + [x] == names;
    }
  }

  lemma {:induction false} TotalOfNone(out: seq<Tag>)
    ensures TotalOver(out, []) == 0
  {
    if out != [] { TotalOfNone(out[..|out| - 1]); }
  }

  lemma {:induction false} TotalIsOver(out: seq<Tag>, names: seq<string>)
    requires forall i :: 0 <= i < |out| ==> out[i].count == CountOf(names, ToLower(out[i].name))
    ensures Total(out) == TotalOver(out, names)
  {
    if out != [] { TotalIsOver(out[..|out| - 1], names); }
  }

  /** The counts sum to the number of tag occurrences in the catalog. */
  lemma CountsAreConserved(names: seq<string>, out: seq<Tag>)
    requires IsTagList(names, out)
    ensures Total(out) == |names|
  {
    StrOrder();
    forall i, j | 0 <= i < j < |out| ensures ToLower(out[i].name) != ToLower(out[j].name) {
      assert StrCmp(ToLower(out[i].name), ToLower(out[j].name)) < 0;
      assert StrCmp(ToLower(out[i].name), ToLower(out[i].name)) == -StrCmp(ToLower(out[i].name), ToLower(out[i].name));
    }
    forall i | 0 <= i < |names| ensures Listed(out, ToLower(names[i])) {
      CountAndFirst(names, ToLower(names[i]));
    }
    TotalIsOver(out, names);
    TotalOfListed(out, names);
  }

  // ----- the counts in terms of the catalog -----

  /** Tag `i` of entry `j` is `k` in lower case. */
  predicate Place(items: seq<Mod>, k: string, j: int, i: int) {
    0 <= j < |items| && 0 <= i < |items[j].tags| && ToLower(items[j].tags[i]) == k
  }

  function PlacesIn(tags: seq<string>, k: string, j: nat): set<(int, int)> {
    set i | 0 <= i < |tags| && ToLower(tags[i]) == k :: (j, i)
  }

  /** Where the catalog has the tag: pairs of an entry and a position among its tags. */
  function Places(items: seq<Mod>, k: string): set<(int, int)> {
    set j, i | 0 <= j < |items| && 0 <= i < |items[j].tags| && ToLower(items[j].tags[i]) == k :: (j, i)
  }

  lemma {:induction false} CountIn(tags: seq<string>, k: string, j: nat)
    ensures CountOf(tags, k) == |PlacesIn(tags, k, j)|
  {
    if tags != [] {
      var init, last := tags[..|tags| - 1], |tags| - 1;
      CountIn(init, k, j);
      assert forall i :: 0 <= i < |init| ==> init[i] == tags[i];
      assert PlacesIn(tags, k, j) == PlacesIn(init, k, j) + if ToLower(tags[last]) == k then {(j, last)} else {};
      assert (j, last) !in PlacesIn(init, k, j);
    }
  }

  lemma {:induction false} CountConcat(a: seq<string>, b: seq<string>, k: string)
    ensures CountOf(a + b, k) == CountOf(a, k) + CountOf(b, k)
  {
    if b == [] {
      assert a + b == a;
    } else {
      assert (a + b)[..|a + b| - 1] == a + b[..|b| - 1];
      CountConcat(a, b[..|b| - 1], k);
    }
  }

  /** The count of a tag is the number of its places in the catalog. */
  lemma {:induction false} CountIsPlaces(items: seq<Mod>, k: string)
    ensures CountOf(Occurrences(items), k) == |Places(items, k)|
  {
    if items == [] {
      assert Places(items, k) == {};
    } else {
      var init, last := items[..|items| - 1], |items| - 1;
      CountIsPlaces(init, k);
      CountConcat(Occurrences(init), items[last].tags, k);
      CountIn(items[last].tags, k, last);
      PlacesSplit(items, k);
    }
  }

  lemma PlacesSplit(items: seq<Mod>, k: string)
    requires items != []
    ensures var last := |items| - 1;
            |Places(items, k)| == |Places(items[..last], k)| + |PlacesIn(items[last].tags, k, last)|
  {
    var init, last := items[..|items| - 1], |items| - 1;
    var before, here := Places(init, k), PlacesIn(items[last].tags, k, last);
    assert Places(items, k) == before + here;
    assert before !! here;
  }

  /** No earlier entry has the tag, and no earlier position of this one. */
  ghost predicate FirstPlace(items: seq<Mod>, k: string, j: int, i: int) {
    && Place(items, k, j, i)
    && (forall x, y :: Place(items, k, x, y) ==> j < x || (j == x && i <= y))
  }

  lemma {:induction false} FirstConcat(a: seq<string>, b: seq<string>, k: string)
    ensures FirstOf(a + b, k) == if FirstOf(a, k).Some? then FirstOf(a, k) else FirstOf(b, k)
  {
    if a == [] {
      assert a + b == b;
    } else {
      assert (a + b)[1..] == a[1..] + b;
      FirstConcat(a[1..], b, k);
    }
  }

  lemma {:induction false} FirstIn(tags: seq<string>, k: string) returns (i: int)
    ensures FirstOf(tags, k).None? ==> forall x :: 0 <= x < |tags| ==> ToLower(tags[x]) != k
    ensures FirstOf(tags, k).Some? ==>
              && 0 <= i < |tags| && ToLower(tags[i]) == k && FirstOf(tags, k).value == tags[i]
              && forall x :: 0 <= x < i ==> ToLower(tags[x]) != k
  {
    i := 0;
    if tags != [] && ToLower(tags[0]) != k {
      i := FirstIn(tags[1..], k);
      assert forall x :: 0 < x < |tags| ==> tags[x] == tags[1..][x - 1];
      i := i + 1;
    }
  }

  /** What the places of a tag say about its spelling. */
  ghost predicate SpeltFirst(items: seq<Mod>, k: string, first: Option<string>) {
    match first
    case None => forall j, i :: !Place(items, k, j, i)
    case Some(name) => exists j, i :: FirstPlace(items, k, j, i) && items[j].tags[i] == name
  }

  lemma SpeltBefore(items: seq<Mod>, k: string, name: string)
    requires items != [] && SpeltFirst(items[..|items| - 1], k, Some(name))
    ensures SpeltFirst(items, k, Some(name))
  {
    var init, last := items[..|items| - 1], |items| - 1;
    var j, i :| FirstPlace(init, k, j, i) && init[j].tags[i] == name;
    assert forall x, y :: Place(items, k, x, y) && x < last ==> Place(init, k, x, y);
    assert Place(items, k, j, i);
    assert FirstPlace(items, k, j, i);
  }

  lemma SpeltLast(items: seq<Mod>, k: string)
    requires items != [] && SpeltFirst(items[..|items| - 1], k, None)
    ensures SpeltFirst(items, k, FirstOf(items[|items| - 1].tags, k))
  {
    var init, last := items[..|items| - 1], |items| - 1;
    var i := FirstIn(items[last].tags, k);
    assert forall x, y :: Place(items, k, x, y) && x < last ==> Place(init, k, x, y);
    if FirstOf(items[last].tags, k).Some? {
      assert FirstPlace(items, k, last, i);
    }
  }

  /** The listed spelling of a tag is the one at its first place in the catalog. */
  lemma {:induction false} SpellingIsFirst(items: seq<Mod>, k: string)
    ensures SpeltFirst(items, k, FirstOf(Occurrences(items), k))
  {
    if items != [] {
      var init, last := items[..|items| - 1], |items| - 1;
      SpellingIsFirst(init, k);
      FirstConcat(Occurrences(init), items[last].tags, k);
      match FirstOf(Occurrences(init), k)
      case Some(name) => SpeltBefore(items, k, name);
      case None => SpeltLast(items, k);
    }
  }

  /** The list in terms of the catalog: each tag once, with its first spelling and the number of its places. */
  lemma ListingByPlaces(items: seq<Mod>, out: seq<Tag>)
    requires IsTagList(Occurrences(items), out)
    ensures forall x :: 0 <= x < |out| ==>
              var k := ToLower(out[x].name);
              out[x].count == |Places(items, k)| &&
              exists j, i :: FirstPlace(items, k, j, i) && items[j].tags[i] == out[x].name
    ensures forall j, i :: 0 <= j < |items| && 0 <= i < |items[j].tags| ==> Listed(out, ToLower(items[j].tags[i]))
  {
    forall x | 0 <= x < |out|
      ensures var k := ToLower(out[x].name);
              out[x].count == |Places(items, k)| &&
              exists j, i :: FirstPlace(items, k, j, i) && items[j].tags[i] == out[x].name
    {
      CountIsPlaces(items, ToLower(out[x].name));
      SpellingIsFirst(items, ToLower(out[x].name));
    }
    forall j, i | 0 <= j < |items| && 0 <= i < |items[j].tags| ensures Listed(out, ToLower(items[j].tags[i])) {
      SpellingIsFirst(items, ToLower(items[j].tags[i]));
      assert Place(items, ToLower(items[j].tags[i]), j, i);
    }
  }
}

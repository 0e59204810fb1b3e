/** Searching the catalog in moddb/client.go: filtering, stable sorting and paging. */
module Search {
  import opened Int64
  import opened ModdbModels
  import opened Options
  import opened Order
  import opened StableSorting
  import opened Text

  /** The local filters; a missing side or date does not filter. */
  datatype Query = Query(text: string, sort: string, side: Option<Side>, updatedAfter: Option<int>,
                         tags: seq<string>, page: int, pageSize: int)

  // ----- filtering -----

  predicate MatchesText(m: Mod, q: string) {
    Contains(ToLower(Join([m.id, m.slug, m.name, m.authorName, m.summary, Join(m.tags, ' ')], ' ')), q)
  }

  predicate HasTag(tags: seq<string>, t: string) { exists i :: 0 <= i < |tags| && EqualFold(tags[i], t) }

  function NormalizedText(q: Query): string { ToLower(TrimSpace(q.text)) }

  predicate Keeps(q: Query, m: Mod) {
    && (NormalizedText(q) != "" ==> MatchesText(m, NormalizedText(q)))
    && (q.side.Some? && q.side.value != UnknownSide ==> m.side == q.side.value)
    && (q.updatedAfter.Some? ==> m.updatedAt.Some? && m.updatedAt.value >= q.updatedAfter.value)
    && (forall i :: 0 <= i < |q.tags| ==> HasTag(m.tags, q.tags[i]))
  }

  /** The kept entries in catalog order. */
  function Filtered(q: Query, items: seq<Mod>): seq<Mod> {
    if items == [] then []
    else
      Filtered(q, items[..|items| - 1]) + if Keeps(q, items[|items| - 1]) then [items[|items| - 1]] else []
  }

  method FilterMods(q: Query, items: seq<Mod>) returns (filtered: seq<Mod>)
    ensures filtered == Filtered(q, items)
  {
    filtered := [];
    assert items[..|items|] == items;
    for i := 0 to |items|
      invariant filtered == Filtered(q, items[..i])
    {
      var m := items[i];
      assert items[..i + 1][..i] == items[..i];
      var text := ToLower(TrimSpace(q.text));
      if text != "" && !MatchesText(m, text) { continue; }
      if q.side.Some? && q.side.value != UnknownSide && m.side != q.side.value { continue; }
      if q.updatedAfter.Some? && (m.updatedAt.None? || m.updatedAt.value < q.updatedAfter.value) { continue; }
      if |q.tags| > 0 && !forall i :: 0 <= i < |q.tags| ==> HasTag(m.tags, q.tags[i]) { continue; }
      filtered := filtered + [m];
    }
  }

  /** A list is filtered piece by piece, in its order. */
  lemma {:induction false} FilteredInOrder(q: Query, a: seq<Mod>, b: seq<Mod>)
    ensures Filtered(q, a + b) == Filtered(q, a) + Filtered(q, b)
  {
    if b == [] {
      assert a + b == a;
    } else {
      assert (a + b)[..|a + b| - 1] == a + b[..|b| - 1];
      FilteredInOrder(q, a, b[..|b| - 1]);
    }
  }

  /** Which entries pass the filters that are set. */
  lemma KeepsExactly(q: Query, m: Mod)
    ensures var text := ToLower(TrimSpace(q.text));
            Keeps(q, m) <==>
              && (text == "" || MatchesText(m, text))
              && (q.side.None? || q.side == Some(UnknownSide) || q.side == Some(m.side))
              && (q.updatedAfter.None? || (m.updatedAt.Some? && q.updatedAfter.value <= m.updatedAt.value))
              && (forall t :: t in q.tags ==> exists u :: u in m.tags && ToLower(u) == ToLower(t))
  {
    TagsKept(q.tags, m.tags);
  }

  /** The entries that pass are kept as often as they are listed, and no others. */
  lemma {:induction false} KeptExactly(q: Query, items: seq<Mod>, m: Mod)
    ensures multiset(Filtered(q, items))[m] == if Keeps(q, m) then multiset(items)[m] else 0
  {
    if items != [] {
      var init, last := items[..|items| - 1], items[|items| - 1];
      KeptExactly(q, init, m);
      assert items == init + [last];
    }
  }

  lemma TagsKept(wanted: seq<string>, tags: seq<string>)
    ensures (forall i :: 0 <= i < |wanted| ==> HasTag(tags, wanted[i])) <==>
            forall t :: t in wanted ==> exists u :: u in tags && ToLower(u) == ToLower(t)
  {
    forall t ensures HasTag(tags, t) <==> exists u :: u in tags && ToLower(u) == ToLower(t) {
      if HasTag(tags, t) {
        var i :| 0 <= i < |tags| && EqualFold(tags[i], t);
        assert tags[i] in tags;
      }
    }
    forall i | 0 <= i < |wanted| ensures wanted[i] in wanted {}
    assert (forall i :: 0 <= i < |wanted| ==> HasTag(tags, wanted[i])) <==> forall t :: t in wanted ==> HasTag(tags, t);
  }

  // ----- the text filter -----

  predicate At(s: string, t: string, i: int) { 0 <= i <= i + |t| <= |s| && s[i..i + |t|] == t }

  lemma ContainsAt(s: string, t: string)
    ensures Contains(s, t) <==> exists i :: At(s, t, i)
  {
    if Contains(s, t) {
      var i :| 0 <= i <= |s| && t <= s[i..];
      assert s[i..i + |t|] == s[i..][..|t|];
      assert At(s, t, i);
    }
    if i :| At(s, t, i) {
      assert s[i..][..|t|] == s[i..i + |t|];
    }
  }

  /** Where a text is found in two texts with a separator between them. */
  lemma AtEither(a: string, c: char, b: string, t: string, i: int)
    requires At(a + [c] + b, t, i) && t != ""
    ensures At(a, t, i) || At(b, t, i - |a| - 1) || c in t
  {
    var s := a + [c] + b;
    if i + |t| <= |a| {
      assert s[i..i + |t|] == a[i..i + |t|];
    } else if i > |a| {
      assert s[i..i + |t|] == b[i - |a| - 1..i - |a| - 1 + |t|];
    } else {
      assert s[i..i + |t|][|a| - i] == c;
    }
  }

  /** A text without the separator is found in two texts with it between them if it is found in one. */
  lemma ContainsEither(a: string, c: char, b: string, t: string)
    requires t != ""
    ensures Contains(a, t) || Contains(b, t) ==> Contains(a + [c] + b, t)
    ensures c !in t && Contains(a + [c] + b, t) ==> Contains(a, t) || Contains(b, t)
  {
    var s := a + [c] + b;
    ContainsAt(a, t);
    ContainsAt(b, t);
    ContainsAt(s, t);
    if i :| At(a, t, i) {
      assert s[i..i + |t|] == a[i..i + |t|];
      assert At(s, t, i);
    }
    if i :| At(b, t, i) {
      var k := i + |a| + 1;
      assert s[k..k + |t|] == b[i..i + |t|];
      assert At(s, t, k);
    }
    if i :| At(s, t, i) { AtEither(a, c, b, t, i); }
  }

  predicate FoundIn(texts: seq<string>, t: string) { exists i :: 0 <= i < |texts| && Contains(ToLower(texts[i]), t) }

  lemma LowerConcat(a: string, c: char, b: string)
    requires LowerChar(c) == c
    ensures ToLower(a + [c] + b) == ToLower(a) + [c] + ToLower(b)
  {
  }

  /** What is found in texts joined by spaces is what is found in one of them, unless it has a space itself. */
  lemma {:induction false} FoundInJoined(texts: seq<string>, t: string)
    requires texts != [] && t != ""
    ensures FoundIn(texts, t) ==> Contains(ToLower(Join(texts, ' ')), t)
    ensures ' ' !in t && Contains(ToLower(Join(texts, ' ')), t) ==> FoundIn(texts, t)
  {
    if |texts| == 1 {
      assert FoundIn(texts, t) <==> Contains(ToLower(texts[0]), t);
    } else {
      var head, rest := texts[0], texts[1..];
      FoundInJoined(rest, t);
      LowerConcat(head, ' ', Join(rest, ' '));
      FoundInHeadOrRest(texts, t);
      ContainsEither(ToLower(head), ' ', ToLower(Join(rest, ' ')), t);
    }
  }

  lemma FoundInHeadOrRest(texts: seq<string>, t: string)
    requires texts != []
    ensures FoundIn(texts, t) <==> Contains(ToLower(texts[0]), t) || FoundIn(texts[1..], t)
  {
    if FoundIn(texts[1..], t) {
      var i :| 0 <= i < |texts[1..]| && Contains(ToLower(texts[1..][i]), t);
      assert texts[i + 1] == texts[1..][i];
    }
    if i :| 0 < i < |texts| && Contains(ToLower(texts[i]), t) {
      assert texts[1..][i - 1] == texts[i];
    }
  }

  /**
   A text filter finds every entry that has it in its ID, slug, name, author, summary or a tag, in
   any case; and only those when it is a single word.
   */
  lemma TextFindsFields(m: Mod, t: string)
    requires t != ""
    ensures var found := FoundIn([m.id, m.slug, m.name, m.authorName, m.summary], t) || FoundIn(m.tags, t);
            (found ==> MatchesText(m, t)) && (' ' !in t && MatchesText(m, t) ==> found)
  {
    var fields, tags := [m.id, m.slug, m.name, m.authorName, m.summary], Join(m.tags, ' ');
    FoundInJoined(fields + [tags], t);
    assert [m.id, m.slug, m.name, m.authorName, m.summary, tags] == fields + [tags];
    FoundInLast(fields, tags, t);
    if m.tags == [] {
      assert !FoundIn(m.tags, t) && !Contains(ToLower(tags), t);
    } else {
      FoundInJoined(m.tags, t);
    }
  }

  lemma FoundInLast(texts: seq<string>, last: string, t: string)
    ensures FoundIn(texts + [last], t) <==> FoundIn(texts, t) || Contains(ToLower(last), t)
  {
    var all := texts + [last];
    assert all[|texts|] == last;
    if i :| 0 <= i < |texts| && Contains(ToLower(texts[i]), t) {
      assert all[i] == texts[i];
    }
  }

  // ----- sorting -----

  /** Later dates first, missing dates last. */
  predicate DateAfter(a: Option<int>, b: Option<int>) { a.Some? && (b.None? || a.value > b.value) }

  predicate Before(mode: string, query: bool, a: Mod, b: Mod) {
    if mode == "downloads" then a.downloads > b.downloads
    else if mode == "name_asc" then StrCmp(ToLower(a.name), ToLower(b.name)) < 0
    else if mode == "name_desc" then StrCmp(ToLower(a.name), ToLower(b.name)) > 0
    else if mode == "newest" || mode == "updated" then DateAfter(a.updatedAt, b.updatedAt)
    else !query && DateAfter(a.updatedAt, b.updatedAt)
  }

  function Less(mode: string, query: bool): (Mod, Mod) -> bool { (a, b) => Before(mode, query, a, b) }

  /** Every sort mode, missing dates included, is a strict weak order. */
  lemma EveryModeIsStrictWeak(mode: string, query: bool)
    ensures StrictWeakOrder(Less(mode, query))
  {
    StrOrder();
    var less := Less(mode, query);
    forall a, b | less(a, b) ensures !less(b, a) {
      NameOrder(a, b, b);
    }
    forall a, b, c | less(a, b) ensures less(a, c) || less(c, b) {
      NameOrder(a, b, c);
      NameOrder(b, a, c);
    }
  }

  lemma NameOrder(a: Mod, b: Mod, c: Mod)
    ensures StrCmp(ToLower(a.name), ToLower(b.name)) == -StrCmp(ToLower(b.name), ToLower(a.name))
    ensures StrCmp(ToLower(a.name), ToLower(b.name)) < 0 ==>
              StrCmp(ToLower(a.name), ToLower(c.name)) < 0 || StrCmp(ToLower(c.name), ToLower(b.name)) < 0
  {
    StrOrder();
    var x, y, z := ToLower(a.name), ToLower(b.name), ToLower(c.name);
    assert StrCmp(x, y) == -StrCmp(y, x) && StrCmp(y, z) == -StrCmp(z, y) && StrCmp(x, z) == -StrCmp(z, x);
    assert StrCmp(y, z) <= 0 && StrCmp(z, x) <= 0 ==> StrCmp(y, x) <= 0;
  }

  method SortMods(v: array<Mod>, mode: string, query: bool)
    modifies v
    ensures v[..] == StableSort(Less(mode, query), old(v[..]))
  {
    SliceStable(v, Less(mode, query));
  }

  /** The order of every mode is the one stable sort, whatever algorithm finds it. */
  lemma SortIsUnique(mode: string, query: bool, s: seq<Mod>, out: seq<Mod>)
    ensures IsStableSort(Less(mode, query), s, out) <==> out == StableSort(Less(mode, query), s)
  {
    EveryModeIsStrictWeak(mode, query);
    StableSortUnique(Less(mode, query), s, out);
  }

  /** What each mode asks of two entries in this order. */
  predicate InOrder(mode: string, a: Mod, b: Mod) {
    if mode == "downloads" then a.downloads >= b.downloads
    else if mode == "name_asc" then StrCmp(ToLower(a.name), ToLower(b.name)) <= 0
    else if mode == "name_desc" then StrCmp(ToLower(a.name), ToLower(b.name)) >= 0
    else b.updatedAt.None? || (a.updatedAt.Some? && a.updatedAt.value >= b.updatedAt.value)
  }

  /** The result is in the order asked for, entries without a date last when sorted by date. */
  lemma SortedAsAsked(mode: string, query: bool, s: seq<Mod>, i: nat, j: nat)
    requires i < j < |StableSort(Less(mode, query), s)| && (NamedMode(mode) || !query)
    ensures InOrder(mode, StableSort(Less(mode, query), s)[i], StableSort(Less(mode, query), s)[j])
  {
    EveryModeIsStrictWeak(mode, query);
    StableSortIsStable(Less(mode, query), s);
    var out := StableSort(Less(mode, query), s);
    assert !Less(mode, query)(out[j], out[i]);
    NameOrder(out[i], out[j], out[j]);
  }

  predicate NamedMode(mode: string) { mode in {"downloads", "name_asc", "name_desc", "newest", "updated"} }

  /** The default mode keeps the catalog order of a text query. */
  lemma {:induction false} DefaultKeepsOrder(mode: string, s: seq<Mod>)
    requires !NamedMode(mode)
    ensures StableSort(Less(mode, true), s) == s
  {
    if s != [] {
      DefaultKeepsOrder(mode, s[..|s| - 1]);
      assert s == s[..|s| - 1] + [s[|s| - 1]];
    }
  }

  // ----- paging -----

  function PageNumber(page: int): (r: int)
    ensures r >= 1 && (page >= 1 ==> r == page) && (page < 1 ==> r == 1)
  {
    if page < 1 then 1 else page
  }

  function PageSize(size: int): (r: int)
    ensures 1 <= r <= 60 && (1 <= size <= 60 ==> r == size) && (size < 1 || size > 60 ==> r == 24)
  {
    if size < 1 || size > 60 then 24 else size
  }

  /** Where the page starts and ends, computed in 64 bits. */
  function Bounds(page: int, size: int, total: int): (int, int) {
    var product := Wrap((page - 1) * size);
    var start := if product > total then total else product;
    var sum := Wrap(start + size);
    (start, if sum > total then total else sum)
  }

  /** Where the page starts and ends. */
  function Ideal(page: int, size: int, total: int): (int, int) {
    (Min((page - 1) * size, total), Min(page * size, total))
  }

  function TotalPages(size: int, total: int): int
    requires size > 0
  {
    (total + size - 1) / size
  }

  /** The lists of a program fit into memory with room for a page. */
  predicate Fits(total: int) { 0 <= total <= MAX_INT - 60 }

  /** The 64-bit bounds are the right ones exactly when the product does not wrap into the list. */
  lemma BoundsAreIdeal(page: int, size: int, total: int)
    requires 1 <= page <= MAX_INT && 1 <= size <= 60 && Fits(total)
    ensures Bounds(page, size, total) == Ideal(page, size, total) <==>
            (page - 1) * size <= MAX_INT || Wrap((page - 1) * size) >= total
  {
  }

  lemma Product(x: int, y: int)
    requires x >= 0 && y >= 0
    ensures x * y >= 0
  {
  }

  /** Slicing panics exactly when the product wraps to a negative start. */
  lemma SlicePanicsIff(page: int, size: int, total: int)
    requires 1 <= page <= MAX_INT && 1 <= size <= 60 && Fits(total)
    ensures var b := Bounds(page, size, total);
            !(0 <= b.0 <= b.1 <= total) <==> Wrap((page - 1) * size) < 0
  {
  }

  /** Page 2^60 + 1 of size 24 is such a page. */
  lemma HugePagePanics(total: int)
    requires Fits(total)
    ensures var b := Bounds(0x1000_0000_0000_0001, 24, total); b.0 < 0
  {
  }

  datatype ListError = NoError | StaleList | ListFailed

  /** What enrichPage gives back: the page, whether a lookup failed, or how the context ended. */
  datatype Enrichment = Page(items: seq<Mod>, failed: bool) | PageCanceled | PageDeadline

  datatype Warning = NoWarning | StaleWarning | LookupWarning | DeadlineWarning

  datatype SearchResult =
    | SearchResult(items: seq<Mod>, page: int, pageSize: int, totalItems: int, totalPages: int, hasNext: bool,
                   warning: Warning)
    | SearchFailed
    | SearchPanicked

  function Matches(q: Query, items: seq<Mod>): seq<Mod> {
    StableSort(Less(q.sort, NormalizedText(q) != ""), Filtered(q, items))
  }

  method FindMatches(q: Query, items: seq<Mod>) returns (found: seq<Mod>)
    ensures found == Matches(q, items)
  {
    var filtered := FilterMods(q, items);
    var v := new Mod[|filtered|](i requires 0 <= i < |filtered| => filtered[i]);
    assert v[..] == filtered;
    SortMods(v, q.sort, NormalizedText(q) != "");
    found := v[..];
  }

  datatype PageView = PageView(items: seq<Mod>, page: int, size: int, total: int, totalPages: int, hasNext: bool)
                    | SlicePanics

  /** The page that the 64-bit bounds cut out of the matches. */
  ghost predicate IsPage(r: PageView, found: seq<Mod>, page: int, size: int) {
    var b := Bounds(page, size, |found|);
    if !(0 <= b.0 <= b.1 <= |found|) then r == SlicePanics
    else
      && r.PageView? && r.items == found[b.0..b.1] && r.page == page && r.size == size && r.total == |found|
      && size > 0 && r.totalPages == TotalPages(size, |found|) && (r.hasNext <==> b.1 < |found|)
  }

  /** The arithmetic of the page bounds. */
  method ComputeBounds(page: int, size: int, total: int) returns (start: int, end: int)
    ensures (start, end) == Bounds(page, size, total)
  {
    start := Wrap((page - 1) * size);
    if start > total {
      start := total;
    }
    end := Wrap(start + size);
    if end > total {
      end := total;
    }
  }

  method CutPage(found: seq<Mod>, wantedPage: int, wantedSize: int) returns (r: PageView)
    requires Fits(|found|) && wantedPage <= MAX_INT
    ensures IsPage(r, found, PageNumber(wantedPage), PageSize(wantedSize))
  {
    var page := wantedPage;
    if page < 1 {
      page := 1;
    }
    var size := wantedSize;
    if size < 1 || size > 60 {
      size := 24;
    }
    var total := |found|;
    var start, end := ComputeBounds(page, size, total);
    if !(0 <= start <= end) { return SlicePanics; }
    r := PageView(found[start..end], page, size, total, TotalPages(size, total), end < total);
  }

  /** What Search makes of a page when the catalog was listed with or without a stale error. */
  ghost predicate IsSearchOf(r: SearchResult, view: PageView, stale: bool, byVersion: bool, enriched: Enrichment) {
    if view.SlicePanics? then r == SearchPanicked
    else if byVersion && enriched.PageCanceled? then r == SearchFailed
    else
      && r.SearchResult? && r.page == view.page && r.pageSize == view.size && r.totalItems == view.total
      && r.totalPages == view.totalPages && r.hasNext == view.hasNext
      && r.items == (if !byVersion then view.items else if enriched.Page? then enriched.items else [])
      && (r.warning == StaleWarning <==> stale)
      && (r.warning == NoWarning <==> !stale && (!byVersion || (enriched.Page? && !enriched.failed)))
      && (r.warning == DeadlineWarning <==> !stale && byVersion && enriched.PageDeadline?)
  }

  /**
   Search after the catalog was listed. `byVersion` says that a game-version filter was sent to the
   server, in which case the page is enriched.
   */
  method SearchListing(items: seq<Mod>, listError: ListError, q: Query, byVersion: bool, enrich: seq<Mod> -> Enrichment)
    returns (r: SearchResult, ghost view: PageView)
    requires Fits(|items|) && q.page <= MAX_INT
    ensures listError.ListFailed? ==> r == SearchFailed
    ensures !listError.ListFailed? ==>
              && IsPage(view, Matches(q, items), PageNumber(q.page), PageSize(q.pageSize))
              && IsSearchOf(r, view, listError.StaleList?, byVersion, enrich(if view.PageView? then view.items else []))
  {
    view := SlicePanics;
    if listError.ListFailed? { return SearchFailed, view; }
    var warning := if listError.StaleList? then StaleWarning else NoWarning;
    var found := FindMatches(q, items);
    MatchesSize(q, items);
    var page := CutPage(found, q.page, q.pageSize);
    view := page;
    if page.SlicePanics? { return SearchPanicked, view; }
    var pageItems := page.items;
    if byVersion {
      match enrich(pageItems)
      case PageCanceled => return SearchFailed, view;
      case PageDeadline =>
        if warning == NoWarning { warning := DeadlineWarning; }
        pageItems := [];
      case Page(enriched, failed) =>
        if failed && warning == NoWarning { warning := LookupWarning; }
        pageItems := enriched;
    }
    r := SearchResult(pageItems, page.page, page.size, page.total, page.totalPages, page.hasNext, warning);
  }

  /** The matches are the kept entries, in the order asked for, ties in catalog order. */
  lemma MatchesExactly(q: Query, items: seq<Mod>)
    ensures forall m :: multiset(Matches(q, items))[m] == if Keeps(q, m) then multiset(items)[m] else 0
    ensures var found, text := Matches(q, items), ToLower(TrimSpace(q.text));
            && (NamedMode(q.sort) || text == "" ==>
                  forall i, j :: 0 <= i < j < |found| ==> InOrder(q.sort, found[i], found[j]))
            && (!NamedMode(q.sort) && text != "" ==> found == Filtered(q, items))
            && IsStableSort(Less(q.sort, text != ""), Filtered(q, items), found)
  {
    var text, found := ToLower(TrimSpace(q.text)), Matches(q, items);
    SortIsUnique(q.sort, text != "", Filtered(q, items), found);
    forall m ensures multiset(found)[m] == if Keeps(q, m) then multiset(items)[m] else 0 {
      KeptExactly(q, items, m);
    }
    if NamedMode(q.sort) || text == "" {
      forall i, j | 0 <= i < j < |found| ensures InOrder(q.sort, found[i], found[j]) {
        SortedAsAsked(q.sort, text != "", Filtered(q, items), i, j);
      }
    } else {
      DefaultKeepsOrder(q.sort, Filtered(q, items));
    }
  }

  lemma MatchesSize(q: Query, items: seq<Mod>)
    ensures |Matches(q, items)| <= |items|
  {
    var less := Less(q.sort, NormalizedText(q) != "");
    FilteredSize(q, items);
    EveryModeIsStrictWeak(q.sort, NormalizedText(q) != "");
    StableSortIsStable(less, Filtered(q, items));
    assert |multiset(Matches(q, items))| == |multiset(Filtered(q, items))|;
  }

  lemma {:induction false} FilteredSize(q: Query, items: seq<Mod>)
    ensures |Filtered(q, items)| <= |items|
  {
    if items != [] { FilteredSize(q, items[..|items| - 1]); }
  }

  // ----- pages partition the result -----

  function PageOf(found: seq<Mod>, size: int, page: int): seq<Mod>
    requires page >= 1 && size >= 1
  {
    Product(page - 1, size);
    assert page * size == (page - 1) * size + size;
    var b := Ideal(page, size, |found|);
    found[b.0..b.1]
  }

  /** Pages 1 to `n`, one after another. */
  function Pages(found: seq<Mod>, size: int, n: nat): seq<Mod>
    requires size >= 1
  {
    if n == 0 then [] else Pages(found, size, n - 1) + PageOf(found, size, n)
  }

  lemma {:induction false} PagesAreAPrefix(found: seq<Mod>, size: int, n: nat)
    requires size >= 1
    ensures n * size >= 0
    ensures Pages(found, size, n) == found[..Min(n * size, |found|)]
  {
    if n > 0 {
      PagesAreAPrefix(found, size, n - 1);
      assert n * size == (n - 1) * size + size;
      var a, b := Min((n - 1) * size, |found|), Min(n * size, |found|);
      assert found[..a] + found[a..b] == found[..b];
    }
  }

  lemma PagesNeeded(size: int, total: int, page: int)
    requires size >= 1 && total >= 0
    ensures TotalPages(size, total) >= 0
    ensures page <= TotalPages(size, total) <==> (page - 1) * size < total
    ensures page < TotalPages(size, total) <==> page * size < total
  {
    var n := TotalPages(size, total);
    assert total + size - 1 == n * size + (total + size - 1) % size;
    Steps(page, n, size);
    Steps(n, page - 1, size);
    Steps(page + 1, n, size);
    Steps(n, page, size);
    assert (page - 1) * size == page * size - size;
    assert (page + 1) * size == page * size + size;
    Steps(n, -1, size);
    assert n * size > -size;
    Steps(n + 1, 0, size);
  }

  lemma Steps(x: int, y: int, size: int)
    requires size >= 1
    ensures x <= y ==> x * size <= y * size
  {
    if x <= y {
      Product(y - x, size);
      assert (y - x) * size == y * size - x * size;
    }
  }

  /**
   Pages 1 to TotalPages, one after another, are the whole result once; later pages are empty; and
   there is a next page exactly below TotalPages.
   */
  lemma PagesPartition(found: seq<Mod>, size: int, page: int)
    requires 1 <= size <= 60 && page >= 1
    ensures TotalPages(size, |found|) >= 0
    ensures Pages(found, size, TotalPages(size, |found|)) == found
    ensures page > TotalPages(size, |found|) <==> PageOf(found, size, page) == []
    ensures Ideal(page, size, |found|).1 < |found| <==> page < TotalPages(size, |found|)
  {
    var n := TotalPages(size, |found|);
    PagesNeeded(size, |found|, page);
    PagesNeeded(size, |found|, n);
    PagesAreAPrefix(found, size, n);
    Product(page - 1, size);
    assert page * size == (page - 1) * size + size;
  }

  /** A page that Search cuts, product in range, is the page of the partition. */
  lemma CutPageIsRight(r: PageView, found: seq<Mod>, page: int, size: int)
    requires Fits(|found|) && 1 <= page <= MAX_INT && 1 <= size <= 60 && (page - 1) * size <= MAX_INT
    requires IsPage(r, found, page, size)
    ensures r == PageView(PageOf(found, size, page), page, size, |found|, TotalPages(size, |found|),
                          page < TotalPages(size, |found|))
    ensures r.items == [] <==> page > r.totalPages
    ensures page < r.totalPages ==> |r.items| == size
  {
    BoundsAreIdeal(page, size, |found|);
    PagesPartition(found, size, page);
    PagesNeeded(size, |found|, page);
    Product(page - 1, size);
    assert page * size == (page - 1) * size + size;
  }

  /**
   The page that the caller asked for: the first one when the number is below 1, of 24 entries when
   the size is not between 1 and 60.
   */
  lemma SearchGivesPage(r: SearchResult, view: PageView, items: seq<Mod>, q: Query, stale: bool)
    requires Fits(|items|) && q.page <= MAX_INT
    requires IsPage(view, Matches(q, items), PageNumber(q.page), PageSize(q.pageSize))
    requires IsSearchOf(r, view, stale, false, PageCanceled)
    ensures var page, size := Max(1, q.page), if 1 <= q.pageSize <= 60 then q.pageSize else 24;
            var found := Matches(q, items);
            (page - 1) * size <= MAX_INT ==>
              r == SearchResult(PageOf(found, size, page), page, size, |found|, TotalPages(size, |found|),
                                page < TotalPages(size, |found|), if stale then StaleWarning else NoWarning)
  {
    MatchesSize(q, items);
    var page, size := PageNumber(q.page), PageSize(q.pageSize);
    if (page - 1) * size <= MAX_INT { CutPageIsRight(view, Matches(q, items), page, size); }
  }

  function Collected(rs: seq<SearchResult>): seq<Mod>
    requires forall i :: 0 <= i < |rs| ==> rs[i].SearchResult?
  {
    if rs == [] then [] else Collected(rs[..|rs| - 1]) + rs[|rs| - 1].items
  }

  /** What Search gives for page `k` of the query when the catalog was listed. */
  ghost predicate GivesPage(r: SearchResult, items: seq<Mod>, q: Query, k: int, stale: bool) {
    exists view ::
      && IsPage(view, Matches(q.(page := k), items), PageNumber(k), PageSize(q.pageSize))
      && IsSearchOf(r, view, stale, false, PageCanceled)
  }

  lemma {:induction false} FilteredAnyPage(q: Query, items: seq<Mod>, k: int)
    ensures Filtered(q.(page := k), items) == Filtered(q, items)
  {
    if items != [] { FilteredAnyPage(q, items[..|items| - 1], k); }
  }

  /** The numbers of pages that exist are in range. */
  lemma PageInRange(total: int, size: int, k: int)
    requires Fits(total) && 1 <= size <= 60 && 1 <= k <= TotalPages(size, total)
    ensures k <= MAX_INT && 0 <= (k - 1) * size <= MAX_INT
  {
    PagesNeeded(size, total, k);
    Product(k - 1, size);
    Product(k - 1, size - 1);
    assert (k - 1) * size == (k - 1) * (size - 1) + (k - 1);
  }

  lemma OnePage(r: SearchResult, items: seq<Mod>, q: Query, k: int, stale: bool)
    requires Fits(|items|) && 1 <= q.pageSize <= 60 && 1 <= k <= TotalPages(q.pageSize, |Matches(q, items)|)
    requires GivesPage(r, items, q, k, stale)
    ensures r.SearchResult? && r.items == PageOf(Matches(q, items), q.pageSize, k)
  {
    FilteredAnyPage(q, items, k);
    MatchesSize(q, items);
    PageInRange(|Matches(q, items)|, q.pageSize, k);
    var view :|
      && IsPage(view, Matches(q.(page := k), items), PageNumber(k), PageSize(q.pageSize))
      && IsSearchOf(r, view, stale, false, PageCanceled);
    CutPageIsRight(view, Matches(q, items), k, q.pageSize);
  }

  /** Each of the results is its page of the matches. */
  ghost predicate ArePages(rs: seq<SearchResult>, found: seq<Mod>, size: int)
    requires size >= 1
  {
    forall i :: 0 <= i < |rs| ==> rs[i].SearchResult? && rs[i].items == PageOf(found, size, i + 1)
  }

  lemma {:induction false} CollectedPages(rs: seq<SearchResult>, found: seq<Mod>, size: int)
    requires size >= 1 && ArePages(rs, found, size)
    ensures Collected(rs) == Pages(found, size, |rs|)
  {
    if rs != [] {
      var init := rs[..|rs| - 1];
      assert forall i :: 0 <= i < |init| ==> init[i] == rs[i];
      CollectedPages(init, found, size);
    }
  }

  lemma TheyArePages(items: seq<Mod>, q: Query, rs: seq<SearchResult>, stale: bool)
    requires Fits(|items|) && 1 <= q.pageSize <= 60 && |rs| == TotalPages(q.pageSize, |Matches(q, items)|)
    requires forall i :: 0 <= i < |rs| ==> GivesPage(rs[i], items, q, i + 1, stale)
    ensures ArePages(rs, Matches(q, items), q.pageSize)
  {
    forall i | 0 <= i < |rs|
      ensures rs[i].SearchResult? && rs[i].items == PageOf(Matches(q, items), q.pageSize, i + 1)
    {
      OnePage(rs[i], items, q, i + 1, stale);
    }
  }

  /** Searching for pages 1 to TotalPages in turn gives every match once, in order. */
  lemma PagesInTurn(items: seq<Mod>, q: Query, rs: seq<SearchResult>, stale: bool)
    requires Fits(|items|) && 1 <= q.pageSize <= 60 && |rs| == TotalPages(q.pageSize, |Matches(q, items)|)
    requires forall i :: 0 <= i < |rs| ==> GivesPage(rs[i], items, q, i + 1, stale)
    ensures forall i :: 0 <= i < |rs| ==> rs[i].SearchResult?
    ensures Collected(rs) == Matches(q, items)
  {
    TheyArePages(items, q, rs, stale);
    CollectedPages(rs, Matches(q, items), q.pageSize);
    PagesPartition(Matches(q, items), q.pageSize, 1);
  }
}
